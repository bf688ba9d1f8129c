/**
 JSON text as `json.dumps(value, ensure_ascii=False, separators=(",", ":"))` prints it, and the
 reading back of it (RFC 8259, sections 3 to 7). An object is a map, and is printed with sorted
 keys; `JsonDocs` prints dictionaries in their insertion order.
 */
module Json {
  import opened Wrappers
  import opened Text
  import opened Ordering

  // A float is known by its repr, such as "20.0" or "1e-07".
  type FloatRepr = s: string | IsFloatRepr(s) witness "0.0"

  datatype Value =
    | Null
    | Bool(b: bool)
    | Int(n: int)
    | Float(repr: FloatRepr)
    | Str(s: string)
    | Arr(items: seq<Value>)
    | Obj(members: map<string, Value>)

  /** Python's truth test. */
  predicate Truthy(v: Value) {
    match v
    case Null => false
    case Bool(b) => b
    case Int(n) => n != 0
    case Float(repr) => repr != "0.0" && repr != "-0.0"
    case Str(s) => s != ""
    case Arr(items) => items != []
    case Obj(members) => members != map[]
  }

  /** False are exactly null, false, every zero, and everything empty. */
  lemma TruthyExactly(v: Value)
    ensures !Truthy(v) <==> v in [Null, Bool(false), Int(0), Str(""), Arr([]), Obj(map[])] || (v.Float? && (v.repr == "0.0" || v.repr == "-0.0"))
  {
  }

  // ---------- characters ----------

  predicate IsDigit(c: char) { '0' <= c <= '9' }

  predicate IsNumberChar(c: char) {
    IsDigit(c) || c == '-' || c == '+' || c == '.' || c == 'e'
  }

  predicate IsFloatRepr(s: string) {
    && (forall i :: 0 <= i < |s| ==> IsNumberChar(s[i]))
    && ('.' in s || 'e' in s)
    && (IsDigit(s[0]) || s[0] == '-')
  }

  const NUL: char := 0 as char

  /** No control character: in particular no NUL and no line feed. */
  predicate Printable(s: string) {
    forall i :: 0 <= i < |s| ==> s[i] >= ' '
  }

  function HexDigit(n: int): char
    requires 0 <= n < 16
  {
    "0123456789abcdef"[n]
  }

  function HexValue(c: char): (n: int)
    ensures -1 <= n < 16
  {
    if '0' <= c <= '9' then c as int - '0' as int
    else if 'a' <= c <= 'f' then c as int - 'a' as int + 10
    else if 'A' <= c <= 'F' then c as int - 'A' as int + 10
    else -1
  }

  function EscapeChar(c: char): string {
    if c == '"' then "\\\""
    else if c == '\\' then "\\\\"
    else if c == '\n' then "\\n"
    else if c == '\r' then "\\r"
    else if c == '\t' then "\\t"
    else if c == 8 as char then "\\b"
    else if c == 12 as char then "\\f"
    else if c < ' ' then "\\u00" + [HexDigit(c as int / 16), HexDigit(c as int % 16)]
    else [c]
  }

  // ---------- the printer ----------

  function Escape(s: string): string {
    if s == "" then "" else EscapeChar(s[0]) + Escape(s[1..])
  }

  function PrintString(s: string): string {
    "\"" + Escape(s) + "\""
  }

  function Digits(n: nat): string {
    if n < 10 then [('0' as int + n) as char]
    else Digits(n / 10) + [('0' as int + n % 10) as char]
  }

  function PrintInt(n: int): string {
    if n < 0 then "-" + Digits(-n) else Digits(n)
  }

  /** The keys of an object in the order of `sort_keys=True`. */
  function SortedKeys(v: Value): (keys: seq<string>)
    requires v.Obj?
    ensures forall key :: key in keys <==> key in v.members
    ensures Distinct(keys)
  {
    var stamps := Flat(v.members.Keys);
    var keys := InOrder(stamps);
    InOrderAscending(stamps);
    AscendingDistinct(stamps, keys);
    keys
  }

  lemma AscendingDistinct(stamps: map<string, int>, ids: seq<string>)
    requires Ascending(stamps, ids)
    ensures Distinct(ids)
  {
    forall i, j | 0 <= i < j < |ids| ensures ids[i] != ids[j] {
      assert Before(stamps, ids[i], ids[j]);
      LessAsymmetric(ids[i], ids[i]);
    }
  }

  /** `json.dumps(v, ensure_ascii=False, sort_keys=True, separators=(",", ":"))` */
  function Print(v: Value): string
    decreases v, 1, 0
  {
    match v
    case Null => "null"
    case Bool(b) => if b then "true" else "false"
    case Int(n) => PrintInt(n)
    case Float(repr) => repr
    case Str(s) => PrintString(s)
    case Arr(_) => "[" + PrintItems(v, 0) + "]"
    case Obj(_) => "{" + PrintMembers(SortedKeys(v), v) + "}"
  }

  /** The items of `v` from index `from` on. */
  function PrintItems(v: Value, from: nat): string
    requires v.Arr? && from <= |v.items|
    decreases v, 0, |v.items| - from
  {
    if from == |v.items| then ""
    else if from + 1 == |v.items| then Print(v.items[from])
    else Print(v.items[from]) + "," + PrintItems(v, from + 1)
  }

  /** The members of `v` with these keys, in this order. */
  function PrintMembers(keys: seq<string>, v: Value): string
    requires v.Obj? && forall key :: key in keys ==> key in v.members
    decreases v, 0, |keys|
  {
    if keys == [] then ""
    else
      var first := PrintString(keys[0]) + ":" + Print(v.members[keys[0]]);
      if |keys| == 1 then first else first + "," + PrintMembers(keys[1..], v)
  }

  // ---------- the reader ----------

  function Unescape(c: char): Option<char> {
    if c == '"' || c == '\\' || c == '/' then Some(c)
    else if c == 'n' then Some('\n')
    else if c == 'r' then Some('\r')
    else if c == 't' then Some('\t')
    else if c == 'b' then Some(8 as char)
    else if c == 'f' then Some(12 as char)
    else None
  }

  /** The rest of a string literal, after its opening quote. */
  function ReadString(t: string): (r: Option<(string, string)>)
    ensures r.Some? ==> |r.value.1| < |t|
  {
    if t == "" || t[0] < ' ' then None
    else if t[0] == '"' then Some(("", t[1..]))
    else if t[0] != '\\' then
      match ReadString(t[1..])
      case Some((s, rest)) => Some(([t[0]] + s, rest))
      case None => None
    else if |t| < 2 then None
    else if t[1] == 'u' then
      // Only the two-digit escapes: code points above U+00FF print as themselves.
      if |t| < 6 || t[2] != '0' || t[3] != '0' || HexValue(t[4]) < 0 || HexValue(t[5]) < 0 then None
      else
        match ReadString(t[6..])
        case Some((s, rest)) => Some(([(16 * HexValue(t[4]) + HexValue(t[5])) as char] + s, rest))
        case None => None
    else if Unescape(t[1]).None? then None
    else
      match ReadString(t[2..])
      case Some((s, rest)) => Some(([Unescape(t[1]).value] + s, rest))
      case None => None
  }

  /** Length of the longest prefix made of number characters. */
  function NumberSpan(t: string): (n: nat)
    ensures n <= |t| && forall i :: 0 <= i < n ==> IsNumberChar(t[i])
  {
    if t != "" && IsNumberChar(t[0]) then 1 + NumberSpan(t[1..]) else 0
  }

  function ReadNat(t: string): Option<nat> {
    if t == "" || !IsDigit(t[|t| - 1]) then None
    else
      var last := t[|t| - 1] as int - '0' as int;
      if |t| == 1 then Some(last)
      else
        match ReadNat(t[..|t| - 1])
        case Some(n) => Some(10 * n + last)
        case None => None
  }

  function ReadNumber(t: string): Option<Value> {
    if t == "" then None
    else if IsFloatRepr(t) then Some(Float(t))
    else if t[0] == '-' then
      match ReadNat(t[1..])
      case Some(n) => var magnitude: int := n; Some(Int(-magnitude))
      case None => None
    else
      match ReadNat(t)
      case Some(n) => Some(Int(n))
      case None => None
  }

  /** A keyword or a number. */
  function ReadScalar(t: string): (r: Option<(Value, string)>)
    ensures r.Some? ==> |r.value.1| < |t|
  {
    if StartsWith(t, "null") then Some((Null, t[4..]))
    else if StartsWith(t, "true") then Some((Bool(true), t[4..]))
    else if StartsWith(t, "false") then Some((Bool(false), t[5..]))
    else
      var n := NumberSpan(t);
      match ReadNumber(t[..n])
      case Some(v) => Some((v, t[n..]))
      case None => None
  }

  /** One value at the start of `t`, and what follows it. */
  function Read(t: string): (r: Option<(Value, string)>)
    ensures r.Some? ==> |r.value.1| < |t|
    decreases |t|, 0
  {
    if t == "" then None
    else if t[0] == '"' then
      match ReadString(t[1..])
      case Some((s, rest)) => Some((Str(s), rest))
      case None => None
    else if t[0] == '[' then
      if |t| > 1 && t[1] == ']' then Some((Arr([]), t[2..]))
      else
        match ReadItems(t[1..])
        case Some((items, rest)) => Some((Arr(items), rest))
        case None => None
    else if t[0] == '{' then
      if |t| > 1 && t[1] == '}' then Some((Obj(map[]), t[2..]))
      else
        match ReadMembers(t[1..])
        case Some((members, rest)) => Some((Obj(members), rest))
        case None => None
    else ReadScalar(t)
  }

  /** A non-empty list of items, up to and including its closing bracket. */
  function ReadItems(t: string): (r: Option<(seq<Value>, string)>)
    ensures r.Some? ==> |r.value.1| < |t|
    decreases |t|, 1
  {
    match Read(t)
    case None => None
    case Some((v, rest)) =>
      if rest == "" then None
      else if rest[0] == ']' then Some(([v], rest[1..]))
      else if rest[0] != ',' then None
      else
        match ReadItems(rest[1..])
        case Some((items, rest')) => Some(([v] + items, rest'))
        case None => None
  }

  /** A non-empty list of members, up to and including its closing brace; a later key wins. */
  function ReadMembers(t: string): (r: Option<(map<string, Value>, string)>)
    ensures r.Some? ==> |r.value.1| < |t|
    decreases |t|, 1
  {
    if t == "" || t[0] != '"' then None
    else
      match ReadString(t[1..])
      case None => None
      case Some((key, afterKey)) =>
        if afterKey == "" || afterKey[0] != ':' then None
        else
          match Read(afterKey[1..])
          case None => None
          case Some((v, rest)) =>
            if rest == "" then None
            else if rest[0] == '}' then Some((map[key := v], rest[1..]))
            else if rest[0] != ',' then None
            else
              match ReadMembers(rest[1..])
              case Some((members, rest')) => Some((map[key := v] + members, rest'))
              case None => None
  }

  /** `json.loads(text)` */
  function Loads(t: string): Option<Value> {
    match Read(t)
    case Some((v, rest)) => if rest == "" then Some(v) else None
    case None => None
  }

  // ---------- reading undoes printing ----------

  lemma {:induction false} ReadEscape(s: string, rest: string)
    ensures ReadString(Escape(s) + "\"" + rest) == Some((s, rest))
  {
    if s == "" {
      assert Escape(s) + "\"" + rest == "\"" + rest;
    } else {
      ReadEscape(s[1..], rest);
      var tail := Escape(s[1..]) + "\"" + rest;
      ReadEscapedChar(s[0], tail);
      RegroupEscape(EscapeChar(s[0]), Escape(s[1..]), rest);
      assert s == [s[0]] + s[1..];
    }
  }

  lemma RegroupEscape(first: string, others: string, rest: string)
    ensures first + others + "\"" + rest == first + (others + "\"" + rest)
  {
  }

  lemma ReadEscapedChar(c: char, tail: string)
    requires ReadString(tail).Some?
    ensures ReadString(EscapeChar(c) + tail) == Some(([c] + ReadString(tail).value.0, ReadString(tail).value.1))
  {
    if |EscapeChar(c)| == 6 {
      ReadHexEscape(c, tail);
    } else if |EscapeChar(c)| == 2 {
      ReadShortEscape(c, EscapeChar(c)[1], tail);
    } else {
      assert ([c] + tail)[1..] == tail;
    }
  }

  lemma ReadShortEscape(c: char, mark: char, tail: string)
    requires Unescape(mark) == Some(c) && ReadString(tail).Some?
    ensures ReadString("\\" + [mark] + tail) == Some(([c] + ReadString(tail).value.0, ReadString(tail).value.1))
  {
    var t := "\\" + [mark] + tail;
    assert t[0] == '\\' && t[1] == mark && t[2..] == tail;
  }

  lemma HexRoundTrip(n: int)
    requires 0 <= n < 16
    ensures HexValue(HexDigit(n)) == n
  {
  }

  lemma ReadHexEscape(c: char, tail: string)
    requires c < ' ' && ReadString(tail).Some?
    ensures ReadString("\\u00" + [HexDigit(c as int / 16), HexDigit(c as int % 16)] + tail)
         == Some(([c] + ReadString(tail).value.0, ReadString(tail).value.1))
  {
    hide HexValue, HexDigit, ReadString;
    var hi, lo := c as int / 16, c as int % 16;
    HexRoundTrip(hi);
    HexRoundTrip(lo);
    HexParts(HexDigit(hi), HexDigit(lo), tail);
    ReadHexParts("\\u00" + [HexDigit(hi), HexDigit(lo)] + tail, hi, lo);
  }

  lemma HexParts(hi: char, lo: char, tail: string)
    ensures var t := "\\u00" + [hi, lo] + tail;
            |t| >= 6 && t[0] == '\\' && t[1] == 'u' && t[2] == '0' && t[3] == '0' && t[4] == hi && t[5] == lo && t[6..] == tail
  {
  }

  lemma ReadHexParts(t: string, hi: int, lo: int)
    requires |t| >= 6 && t[0] == '\\' && t[1] == 'u' && t[2] == '0' && t[3] == '0' && HexValue(t[4]) == hi >= 0 && HexValue(t[5]) == lo >= 0
    requires ReadString(t[6..]).Some?
    ensures ReadString(t) == Some(([(16 * hi + lo) as char] + ReadString(t[6..]).value.0, ReadString(t[6..]).value.1))
  {
    hide HexValue, Unescape;
  }

  lemma {:induction false} ReadDigits(n: nat)
    ensures ReadNat(Digits(n)) == Some(n)
    ensures forall i :: 0 <= i < |Digits(n)| ==> IsDigit(Digits(n)[i])
    ensures Digits(n) != ""
  {
    if n >= 10 {
      ReadDigits(n / 10);
      var t := Digits(n);
      assert t[..|t| - 1] == Digits(n / 10);
    }
  }

  /** The decimal digits of a number: no sign, no leading zero, and they read back as the number. */
  lemma {:induction false} DecimalExactly(n: int)
    ensures PrintInt(n) == (if n < 0 then "-" + Digits(-n) else Digits(n))
    ensures n >= 0 ==> Digits(n) != "" && (forall i :: 0 <= i < |Digits(n)| ==> '0' <= Digits(n)[i] <= '9') && (Digits(n)[0] == '0' <==> n == 0)
    ensures n >= 0 ==> ReadNat(Digits(n)) == Some(n)
    decreases if n < 0 then 0 else n
  {
    if n >= 0 {
      ReadDigits(n);
      if n >= 10 { DecimalExactly(n / 10); }
    }
  }

  lemma {:induction false} NumberSpanConcat(t: string, rest: string)
    requires forall i :: 0 <= i < |t| ==> IsNumberChar(t[i])
    requires rest != "" ==> !IsNumberChar(rest[0])
    ensures NumberSpan(t + rest) == |t|
  {
    if t == "" {
      assert t + rest == rest;
    } else {
      assert (t + rest)[1..] == t[1..] + rest;
      NumberSpanConcat(t[1..], rest);
    }
  }

  /** How a value can be told from its first character. */
  lemma PrintIntHead(n: int)
    ensures PrintInt(n) != "" && PrintInt(n)[0] != ']'
    ensures forall i :: 0 <= i < |PrintInt(n)| ==> IsNumberChar(PrintInt(n)[i])
    ensures ReadNumber(PrintInt(n)) == Some(Int(n))
  {
    hide Digits, ReadNat;
    ReadDigits(if n < 0 then -n else n);
    assert n < 0 ==> PrintInt(n)[1..] == Digits(-n);
  }

  lemma PrintHead(v: Value)
    ensures Print(v) != ""
    ensures v.Int? || v.Float? ==> forall i :: 0 <= i < |Print(v)| ==> IsNumberChar(Print(v)[i])
    ensures v.Int? || v.Float? ==> ReadNumber(Print(v)) == Some(v)
    ensures Print(v)[0] != ']'
  {
    hide Digits, SortedKeys, Escape, PrintItems, PrintMembers;
    match v
    case Int(n) => PrintIntHead(n);
    case _ =>
  }

  lemma ReadPrintNumber(v: Value, rest: string)
    requires v.Int? || v.Float?
    requires rest != "" ==> !IsNumberChar(rest[0])
    ensures Read(Print(v) + rest) == Some((v, rest))
  {
    PrintHead(v);
    NumberSpanConcat(Print(v), rest);
    var t := Print(v) + rest;
    assert t[0] == Print(v)[0] && IsNumberChar(t[0]);
    assert t[..|Print(v)|] == Print(v) && t[|Print(v)|..] == rest;
  }

  // One step of the reader on text whose shape is known.

  lemma ReadKeyword(v: Value, rest: string)
    requires v.Null? || v.Bool?
    ensures Read(Print(v) + rest) == Some((v, rest))
  {
    var t := Print(v) + rest;
    assert t[|Print(v)|..] == rest;
    assert t[0] == Print(v)[0];
  }

  lemma ReadQuoted(s: string, rest: string)
    ensures Read(PrintString(s) + rest) == Some((Str(s), rest))
  {
    ReadEscape(s, rest);
    var body := Escape(s) + "\"" + rest;
    assert PrintString(s) + rest == "\"" + body;
    assert ("\"" + body)[1..] == body;
  }

  lemma ReadBracketed(body: string)
    requires body != "" && body[0] != ']' && ReadItems(body).Some?
    ensures Read("[" + body) == Some((Arr(ReadItems(body).value.0), ReadItems(body).value.1))
  {
    var t := "[" + body;
    assert t[0] == '[' && t[1] == body[0] && t[1..] == body;
  }

  lemma ReadBraced(body: string)
    requires body != "" && body[0] != '}' && ReadMembers(body).Some?
    ensures Read("{" + body) == Some((Obj(ReadMembers(body).value.0), ReadMembers(body).value.1))
  {
    var t := "{" + body;
    assert t[0] == '{' && t[1] == body[0] && t[1..] == body;
  }

  lemma ReadEmpty(rest: string)
    ensures Read("[]" + rest) == Some((Arr([]), rest))
    ensures Read("{}" + rest) == Some((Obj(map[]), rest))
  {
    assert ("[]" + rest)[2..] == rest && ("{}" + rest)[2..] == rest;
  }

  lemma ReadItemsNext(t: string, v: Value, tail: string)
    requires Read(t) == Some((v, "," + tail)) && ReadItems(tail).Some?
    ensures ReadItems(t) == Some(([v] + ReadItems(tail).value.0, ReadItems(tail).value.1))
  {
    assert ("," + tail)[1..] == tail;
  }

  lemma ReadItemsLast(t: string, v: Value, rest: string)
    requires Read(t) == Some((v, "]" + rest))
    ensures ReadItems(t) == Some(([v], rest))
  {
    assert ("]" + rest)[1..] == rest;
  }

  lemma ReadMemberKey(key: string, value: string)
    ensures var t := PrintString(key) + ":" + value;
            t != "" && t[0] == '"' && ReadString(t[1..]) == Some((key, ":" + value))
  {
    ReadEscape(key, ":" + value);
    var t := PrintString(key) + ":" + value;
    assert t[1..] == Escape(key) + "\"" + (":" + value);
  }

  lemma ReadMembersNext(key: string, v: Value, value: string, tail: string)
    requires Read(value) == Some((v, "," + tail)) && ReadMembers(tail).Some?
    ensures ReadMembers(PrintString(key) + ":" + value) == Some((map[key := v] + ReadMembers(tail).value.0, ReadMembers(tail).value.1))
  {
    ReadMemberKey(key, value);
    assert (":" + value)[1..] == value;
    assert ("," + tail)[1..] == tail;
  }

  lemma ReadMembersLast(key: string, v: Value, value: string, rest: string)
    requires Read(value) == Some((v, "}" + rest))
    ensures ReadMembers(PrintString(key) + ":" + value) == Some((map[key := v], rest))
  {
    ReadMemberKey(key, value);
    assert (":" + value)[1..] == value;
    assert ("}" + rest)[1..] == rest;
  }

  lemma Regroup(a: string, b: string, close: string, rest: string)
    ensures a + "," + b + close + rest == a + ("," + (b + close + rest))
    ensures a + close + rest == a + (close + rest)
  {
  }

  lemma RegroupMember(key: string, item: string, tail: string)
    ensures key + ":" + item + tail == key + ":" + (item + tail)
  {
  }

  /** Reading undoes printing, whatever follows the text. */
  lemma {:induction false} ReadPrint(v: Value, rest: string)
    requires rest != "" ==> !IsNumberChar(rest[0])
    ensures Read(Print(v) + rest) == Some((v, rest))
    decreases v, 1, 1
  {
    match v
    case Null => ReadKeyword(v, rest);
    case Bool(_) => ReadKeyword(v, rest);
    case Int(_) => ReadPrintNumber(v, rest);
    case Float(_) => ReadPrintNumber(v, rest);
    case Str(s) => ReadQuoted(s, rest);
    case Arr(_) => ReadPrintArray(v, rest);
    case Obj(members) =>
      ReadPrintObject(SortedKeys(v), v, rest);
      assert Restrict(SortedKeys(v), v) == members;
  }

  lemma {:induction false} ReadPrintArray(v: Value, rest: string)
    requires v.Arr?
    ensures Read(Print(v) + rest) == Some((v, rest))
    decreases v, 1, 0
  {
    hide Read, ReadItems;
    var text := PrintItems(v, 0);
    var body := text + "]" + rest;
    assert Print(v) + rest == "[" + body;
    if v.items == [] {
      ReadEmpty(rest);
      assert "[" + body == "[]" + rest;
    } else {
      ReadPrintItems(v, 0, rest);
      ItemsHead(v);
      assert body[0] == text[0];
      ReadBracketed(body);
      assert v.items[0..] == v.items;
    }
  }

  lemma ItemsHead(v: Value)
    requires v.Arr? && v.items != []
    ensures PrintItems(v, 0) != "" && PrintItems(v, 0)[0] != ']'
  {
    PrintHead(v.items[0]);
    hide Print;
  }

  lemma {:induction false} ReadPrintItems(v: Value, from: nat, rest: string)
    requires v.Arr? && from < |v.items|
    ensures ReadItems(PrintItems(v, from) + "]" + rest) == Some((v.items[from..], rest))
    decreases v, 0, |v.items| - from
  {
    hide Print, Read, ReadItems;
    var item := v.items[from];
    if from + 1 == |v.items| {
      ReadPrint(item, "]" + rest);
      ReadItemsLast(Print(item) + ("]" + rest), item, rest);
      Regroup(Print(item), "", "]", rest);
      assert v.items[from..] == [item];
    } else {
      var tail := PrintItems(v, from + 1) + "]" + rest;
      ReadPrintItems(v, from + 1, rest);
      ReadPrint(item, "," + tail);
      ReadItemsNext(Print(item) + ("," + tail), item, tail);
      Regroup(Print(item), PrintItems(v, from + 1), "]", rest);
      assert v.items[from..] == [item] + v.items[from + 1..];
    }
  }

  ghost function Restrict(keys: seq<string>, v: Value): map<string, Value>
    requires v.Obj? && forall key :: key in keys ==> key in v.members
  {
    map key | key in keys :: v.members[key]
  }

  lemma RestrictFirst(keys: seq<string>, v: Value)
    requires v.Obj? && keys != [] && Distinct(keys) && forall key :: key in keys ==> key in v.members
    ensures Restrict(keys, v) == map[keys[0] := v.members[keys[0]]] + Restrict(keys[1..], v)
    ensures |keys| == 1 ==> Restrict(keys, v) == map[keys[0] := v.members[keys[0]]]
    ensures Distinct(keys[1..])
  {
    assert keys == [keys[0]] + keys[1..];
  }

  /** An object printed in any key order reads back as the object restricted to those keys. */
  lemma {:induction false} ReadPrintObject(keys: seq<string>, v: Value, rest: string)
    requires v.Obj? && forall key :: key in keys ==> key in v.members
    requires Distinct(keys)
    ensures Read("{" + PrintMembers(keys, v) + "}" + rest) == Some((Obj(Restrict(keys, v)), rest))
    decreases v, 0, |keys| + 1
  {
    hide Read, ReadMembers, Print, Escape, Distinct;
    var body := PrintMembers(keys, v) + "}" + rest;
    assert "{" + PrintMembers(keys, v) + "}" + rest == "{" + body;
    if keys == [] {
      ReadEmpty(rest);
      assert "{" + body == "{}" + rest;
      assert Restrict(keys, v) == map[];
    } else {
      ReadPrintMembers(keys, v, rest);
      assert body[0] == PrintString(keys[0])[0] == '"';
      ReadBraced(body);
    }
  }

  lemma {:induction false} ReadPrintMembers(keys: seq<string>, v: Value, rest: string)
    requires v.Obj? && keys != [] && forall key :: key in keys ==> key in v.members
    requires Distinct(keys)
    ensures ReadMembers(PrintMembers(keys, v) + "}" + rest) == Some((Restrict(keys, v), rest))
    decreases v, 0, |keys|
  {
    var key, item := keys[0], v.members[keys[0]];
    var first := PrintString(key) + ":" + Print(item);
    if |keys| == 1 {
      ReadPrint(item, "}" + rest);
      ReadMembersLast(key, item, Print(item) + ("}" + rest), rest);
      Regroup(first, "", "}", rest);
      RegroupMember(PrintString(key), Print(item), "}" + rest);
      RestrictFirst(keys, v);
    } else {
      var others := keys[1..];
      var tail := PrintMembers(others, v) + "}" + rest;
      ReadPrintMembers(others, v, rest);
      ReadPrint(item, "," + tail);
      ReadMembersNext(key, item, Print(item) + ("," + tail), tail);
      Regroup(first, PrintMembers(others, v), "}", rest);
      RegroupMember(PrintString(key), Print(item), "," + tail);
      RestrictFirst(keys, v);
    }
  }

  /** `json.loads` undoes `json.dumps(..., sort_keys=True)` on every value. */
  lemma LoadsPrint(v: Value)
    ensures Loads(Print(v)) == Some(v)
  {
    ReadPrint(v, "");
    assert Print(v) + "" == Print(v);
  }

  // ---------- no control characters ----------

  lemma PrintableConcat(a: string, b: string)
    requires Printable(a) && Printable(b)
    ensures Printable(a + b)
  {
  }

  lemma EscapeCharPrintable(c: char)
    ensures Printable(EscapeChar(c))
  {
  }

  lemma {:induction false} EscapePrintable(s: string)
    ensures Printable(Escape(s)) && Printable(PrintString(s))
  {
    if s != "" {
      EscapePrintable(s[1..]);
      EscapeCharPrintable(s[0]);
      PrintableConcat(EscapeChar(s[0]), Escape(s[1..]));
    }
    PrintableConcat(Escape(s), "\"");
    PrintableConcat("\"", Escape(s) + "\"");
  }

  lemma {:induction false} PrintPrintable(v: Value)
    ensures Printable(Print(v))
    decreases v, 1, 0
  {
    match v
    case Null =>
    case Bool(_) =>
    case Int(_) => PrintHead(v);
    case Float(_) => PrintHead(v);
    case Str(s) => EscapePrintable(s);
    case Arr(_) => PrintItemsPrintable(v, 0);
    case Obj(_) => PrintMembersPrintable(SortedKeys(v), v);
  }

  lemma {:induction false} PrintItemsPrintable(v: Value, from: nat)
    requires v.Arr? && from <= |v.items|
    ensures Printable(PrintItems(v, from))
    decreases v, 0, |v.items| - from
  {
    if from < |v.items| {
      PrintPrintable(v.items[from]);
      PrintItemsPrintable(v, from + 1);
    }
  }

  lemma {:induction false} PrintMembersPrintable(keys: seq<string>, v: Value)
    requires v.Obj? && forall key :: key in keys ==> key in v.members
    ensures Printable(PrintMembers(keys, v))
    decreases v, 0, |keys|
  {
    hide Print, PrintString;
    if keys != [] {
      EscapePrintable(keys[0]);
      PrintPrintable(v.members[keys[0]]);
      if |keys| > 1 { PrintMembersPrintable(keys[1..], v); }
    }
  }
}
