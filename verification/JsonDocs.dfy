/**
 Python dictionaries before `json.dumps` prints them: at every level the members have the order in
 which they were inserted. Printing keeps that order or, with `sort_keys`, sorts the keys of every level.
 */
module JsonDocs {
  import opened Wrappers
  import opened Text
  import opened Ordering
  import opened Json

  type Scalar = v: Value | !v.Arr? && !v.Obj? witness Null

  datatype Doc =
    | Leaf(v: Scalar)
    | List(items: seq<Doc>)
    | Dict(entries: seq<Entry>)

  datatype Entry = Entry(key: string, doc: Doc)

  /** `json.dumps(d, ensure_ascii=False, separators=(",", ":"))` */
  function PrintDoc(d: Doc): string
    decreases d, 1, 0
  {
    match d
    case Leaf(v) => Print(v)
    case List(_) => "[" + PrintElements(d, 0) + "]"
    case Dict(_) => "{" + PrintEntries(d, 0) + "}"
  }

  function PrintElements(d: Doc, from: nat): string
    requires d.List? && from <= |d.items|
    decreases d, 0, |d.items| - from
  {
    if from == |d.items| then ""
    else if from + 1 == |d.items| then PrintDoc(d.items[from])
    else PrintDoc(d.items[from]) + "," + PrintElements(d, from + 1)
  }

  function PrintEntries(d: Doc, from: nat): string
    requires d.Dict? && from <= |d.entries|
    decreases d, 0, |d.entries| - from
  {
    if from == |d.entries| then ""
    else
      var first := PrintString(d.entries[from].key) + ":" + PrintDoc(d.entries[from].doc);
      if from + 1 == |d.entries| then first else first + "," + PrintEntries(d, from + 1)
  }

  // ---------- what a document holds ----------

  function ToValue(d: Doc): Value
    decreases d, 1, 0
  {
    match d
    case Leaf(v) => v
    case List(_) => Arr(ElementValues(d, 0))
    case Dict(_) => Obj(EntryValues(d, 0))
  }

  function ElementValues(d: Doc, from: nat): (values: seq<Value>)
    requires d.List? && from <= |d.items|
    ensures |values| == |d.items| - from
    decreases d, 0, |d.items| - from
  {
    if from == |d.items| then [] else [ToValue(d.items[from])] + ElementValues(d, from + 1)
  }

  function EntryValues(d: Doc, from: nat): map<string, Value>
    requires d.Dict? && from <= |d.entries|
    decreases d, 0, |d.entries| - from
  {
    if from == |d.entries| then map[]
    else map[d.entries[from].key := ToValue(d.entries[from].doc)] + EntryValues(d, from + 1)
  }

  /** One entry at a time, and the value of a leaf. */
  lemma LastEntries(d: Doc, from: nat)
    requires d.Dict? && from < |d.entries|
    ensures from + 1 == |d.entries| ==> EntryValues(d, from) == map[d.entries[from].key := ToValue(d.entries[from].doc)]
    ensures EntryValues(d, from) == map[d.entries[from].key := ToValue(d.entries[from].doc)] + EntryValues(d, from + 1)
    ensures d.entries[from].doc.Leaf? ==> ToValue(d.entries[from].doc) == d.entries[from].doc.v
  {
    if from + 1 == |d.entries| { assert EntryValues(d, from + 1) == map[]; }
  }

  // ---------- reading undoes printing ----------

  lemma {:induction false} ReadPrintDoc(d: Doc, rest: string)
    requires rest != "" ==> !IsNumberChar(rest[0])
    ensures Read(PrintDoc(d) + rest) == Some((ToValue(d), rest))
    decreases d, 1, 1
  {
    match d
    case Leaf(v) => ReadPrint(v, rest);
    case List(_) => ReadPrintList(d, rest);
    case Dict(_) => ReadPrintDict(d, rest);
  }

  lemma PrintDocHead(d: Doc)
    ensures PrintDoc(d) != "" && PrintDoc(d)[0] != ']'
  {
    hide Print, PrintElements, PrintEntries;
    match d
    case Leaf(v) => PrintHead(v);
    case _ =>
  }

  lemma ElementsHead(d: Doc)
    requires d.List? && d.items != []
    ensures PrintElements(d, 0) != "" && PrintElements(d, 0)[0] != ']'
  {
    hide PrintDoc;
    PrintDocHead(d.items[0]);
  }

  lemma {:induction false} ReadPrintList(d: Doc, rest: string)
    requires d.List?
    ensures Read(PrintDoc(d) + rest) == Some((ToValue(d), rest))
    decreases d, 1, 0
  {
    hide Read, ReadItems, ElementValues, PrintElements;
    var text := PrintElements(d, 0);
    var body := text + "]" + rest;
    assert PrintDoc(d) + rest == "[" + body;
    if d.items == [] {
      ReadEmpty(rest);
      NoElements(d);
      assert "[" + body == "[]" + rest;
    } else {
      ReadPrintElements(d, 0, rest);
      ElementsHead(d);
      assert body[0] == text[0];
      ReadBracketed(body);
    }
  }

  lemma NoElements(d: Doc)
    requires d.List? && d.items == []
    ensures PrintElements(d, 0) == "" && ElementValues(d, 0) == []
  {
  }

  lemma {:induction false} ReadPrintElements(d: Doc, from: nat, rest: string)
    requires d.List? && from < |d.items|
    ensures ReadItems(PrintElements(d, from) + "]" + rest) == Some((ElementValues(d, from), rest))
    decreases d, 0, |d.items| - from
  {
    hide PrintDoc, Read, ReadItems, ToValue;
    var item := d.items[from];
    var text := PrintDoc(item);
    if from + 1 == |d.items| {
      ReadPrintDoc(item, "]" + rest);
      ReadItemsLast(text + ("]" + rest), ToValue(item), rest);
      Regroup(text, "", "]", rest);
      assert ElementValues(d, from) == [ToValue(item)] + ElementValues(d, from + 1) == [ToValue(item)];
    } else {
      var tail := PrintElements(d, from + 1) + "]" + rest;
      ReadPrintElements(d, from + 1, rest);
      ReadPrintDoc(item, "," + tail);
      ReadItemsNext(text + ("," + tail), ToValue(item), tail);
      Regroup(text, PrintElements(d, from + 1), "]", rest);
    }
  }

  lemma {:induction false} ReadPrintDict(d: Doc, rest: string)
    requires d.Dict?
    ensures Read(PrintDoc(d) + rest) == Some((ToValue(d), rest))
    decreases d, 1, 0
  {
    hide Read, ReadMembers, EntryValues, PrintEntries;
    var text := PrintEntries(d, 0);
    var body := text + "}" + rest;
    assert PrintDoc(d) + rest == "{" + body;
    if d.entries == [] {
      ReadEmpty(rest);
      NoEntries(d);
      assert "{" + body == "{}" + rest;
    } else {
      ReadPrintEntries(d, 0, rest);
      EntriesHead(d);
      assert body[0] == text[0];
      ReadBraced(body);
    }
  }

  lemma NoEntries(d: Doc)
    requires d.Dict? && d.entries == []
    ensures PrintEntries(d, 0) == "" && EntryValues(d, 0) == map[]
  {
  }

  lemma EntriesHead(d: Doc)
    requires d.Dict? && d.entries != []
    ensures PrintEntries(d, 0) != "" && PrintEntries(d, 0)[0] == '"'
  {
    hide PrintDoc;
  }

  lemma {:induction false} ReadPrintEntries(d: Doc, from: nat, rest: string)
    requires d.Dict? && from < |d.entries|
    ensures ReadMembers(PrintEntries(d, from) + "}" + rest) == Some((EntryValues(d, from), rest))
    decreases d, 0, |d.entries| - from
  {
    hide PrintDoc, Read, ReadMembers, ToValue, PrintString;
    var key, doc := d.entries[from].key, d.entries[from].doc;
    var text := PrintDoc(doc);
    var first := PrintString(key) + ":" + text;
    if from + 1 == |d.entries| {
      ReadPrintDoc(doc, "}" + rest);
      ReadMembersLast(key, ToValue(doc), text + ("}" + rest), rest);
      Regroup(first, "", "}", rest);
      RegroupMember(PrintString(key), text, "}" + rest);
      assert EntryValues(d, from + 1) == map[];
      assert EntryValues(d, from) == map[key := ToValue(doc)];
    } else {
      var tail := PrintEntries(d, from + 1) + "}" + rest;
      ReadPrintEntries(d, from + 1, rest);
      ReadPrintDoc(doc, "," + tail);
      ReadMembersNext(key, ToValue(doc), text + ("," + tail), tail);
      Regroup(first, PrintEntries(d, from + 1), "}", rest);
      RegroupMember(PrintString(key), text, "," + tail);
    }
  }

  /** `json.loads` undoes `json.dumps`, whatever the insertion orders of the dictionaries at every level. */
  lemma LoadsPrintDoc(d: Doc)
    ensures Loads(PrintDoc(d)) == Some(ToValue(d))
  {
    ReadPrintDoc(d, "");
    assert PrintDoc(d) + "" == PrintDoc(d);
  }

  // ---------- sorted keys ----------

  /** A Python dictionary holds no key twice. */
  ghost predicate WellFormed(d: Doc)
    decreases d
  {
    match d
    case Leaf(_) => true
    case List(items) => forall i :: 0 <= i < |items| ==> WellFormed(items[i])
    case Dict(entries) => Distinct(Keys(entries)) && forall i :: 0 <= i < |entries| ==> WellFormed(entries[i].doc)
  }

  function Keys(entries: seq<Entry>): (keys: seq<string>)
    ensures |keys| == |entries| && forall i :: 0 <= i < |keys| ==> keys[i] == entries[i].key
  {
    seq(|entries|, i requires 0 <= i < |entries| => entries[i].key)
  }

  function InsertEntry(e: Entry, entries: seq<Entry>): seq<Entry> {
    if entries == [] || Less(e.key, entries[0].key) then [e] + entries else [entries[0]] + InsertEntry(e, entries[1..])
  }

  /** The same document with the keys of every level sorted. */
  function Sorted(d: Doc): Doc
    decreases d, 1, 0
  {
    match d
    case Leaf(_) => d
    case List(_) => List(SortedElements(d, 0))
    case Dict(_) => Dict(SortedEntries(d, 0))
  }

  function SortedElements(d: Doc, from: nat): (items: seq<Doc>)
    requires d.List? && from <= |d.items|
    ensures |items| == |d.items| - from
    decreases d, 0, |d.items| - from
  {
    if from == |d.items| then [] else [Sorted(d.items[from])] + SortedElements(d, from + 1)
  }

  function SortedEntries(d: Doc, from: nat): seq<Entry>
    requires d.Dict? && from <= |d.entries|
    decreases d, 0, |d.entries| - from
  {
    if from == |d.entries| then []
    else InsertEntry(Entry(d.entries[from].key, Sorted(d.entries[from].doc)), SortedEntries(d, from + 1))
  }

  lemma {:induction false} InsertEntryKeys(e: Entry, entries: seq<Entry>)
    ensures Keys(InsertEntry(e, entries)) == Insert(e.key, Keys(entries))
    ensures forall x :: x in InsertEntry(e, entries) ==> x == e || x in entries
  {
    hide Less;
    if entries != [] {
      InsertEntryKeys(e, entries[1..]);
      assert Keys(entries)[1..] == Keys(entries[1..]);
    }
  }

  /** Every entry of the sorted dictionary prints as its value does canonically. */
  ghost predicate PrintsIn(v: Value, e: Entry) {
    v.Obj? && e.key in v.members && PrintDoc(e.doc) == Print(v.members[e.key])
  }

  lemma {:induction false} EntryValueAt(d: Doc, from: nat, i: nat)
    requires d.Dict? && from <= i < |d.entries| && Distinct(Keys(d.entries))
    ensures var values := EntryValues(d, from); d.entries[i].key in values && values[d.entries[i].key] == ToValue(d.entries[i].doc)
    ensures forall key :: key in EntryValues(d, from) ==> exists j :: from <= j < |d.entries| && d.entries[j].key == key
    decreases |d.entries| - from
  {
    hide ToValue;
    if from + 1 < |d.entries| {
      EntryValueAt(d, from + 1, if i == from then from + 1 else i);
      if i == from {
        assert Keys(d.entries)[from] == d.entries[from].key;
        forall j | from + 1 <= j < |d.entries| ensures d.entries[j].key != d.entries[from].key {
          assert Keys(d.entries)[j] == d.entries[j].key;
        }
      }
    } else {
      assert EntryValues(d, from + 1) == map[];
    }
  }

  lemma {:induction false} PrintsEntries(e: Doc, from: nat, v: Value)
    requires e.Dict? && from <= |e.entries| && v.Obj?
    requires forall i :: 0 <= i < |e.entries| ==> PrintsIn(v, e.entries[i])
    ensures forall key :: key in Keys(e.entries[from..]) ==> key in v.members
    ensures PrintEntries(e, from) == PrintMembers(Keys(e.entries[from..]), v)
    decreases |e.entries| - from
  {
    hide PrintDoc, Print, PrintString;
    if from < |e.entries| {
      PrintsEntries(e, from + 1, v);
      assert Keys(e.entries[from..])[1..] == Keys(e.entries[from + 1..]);
    }
  }

  lemma {:induction false} PrintsElements(e: Doc, from: nat, v: Value)
    requires e.List? && v.Arr? && |e.items| == |v.items| && from <= |e.items|
    requires forall i :: 0 <= i < |e.items| ==> PrintDoc(e.items[i]) == Print(v.items[i])
    ensures PrintElements(e, from) == PrintItems(v, from)
    decreases |e.items| - from
  {
    hide PrintDoc, Print;
    if from < |e.items| { PrintsElements(e, from + 1, v); }
  }

  lemma {:induction false} ElementAt(d: Doc, from: nat, i: nat)
    requires d.List? && from <= i < |d.items|
    ensures SortedElements(d, from)[i - from] == Sorted(d.items[i]) && ElementValues(d, from)[i - from] == ToValue(d.items[i])
    decreases |d.items| - from
  {
    hide Sorted, ToValue;
    if from < i { ElementAt(d, from + 1, i); }
  }

  lemma {:induction false} SortedEntriesFrom(d: Doc, from: nat)
    requires d.Dict? && from <= |d.entries|
    ensures Keys(SortedEntries(d, from)) == Sort(Keys(d.entries[from..]))
    ensures forall x :: x in SortedEntries(d, from) ==> exists i: nat :: i < |d.entries| && x == Entry(d.entries[i].key, Sorted(d.entries[i].doc))
    decreases |d.entries| - from
  {
    hide Sorted, InsertEntry, Insert;
    if from < |d.entries| {
      SortedEntriesFrom(d, from + 1);
      InsertEntryKeys(Entry(d.entries[from].key, Sorted(d.entries[from].doc)), SortedEntries(d, from + 1));
      assert Keys(d.entries[from..])[1..] == Keys(d.entries[from + 1..]);
    }
  }

  /** Printing with `sort_keys` depends only on what the document holds, at any nesting. */
  lemma {:induction false} SortedPrint(d: Doc)
    requires WellFormed(d)
    ensures PrintDoc(Sorted(d)) == Print(ToValue(d))
    decreases d, 1
  {
    match d
    case Leaf(_) =>
    case List(_) => SortedPrintList(d);
    case Dict(_) => SortedPrintDict(d);
  }

  lemma {:induction false} SortedPrintList(d: Doc)
    requires WellFormed(d) && d.List?
    ensures PrintDoc(Sorted(d)) == Print(ToValue(d))
    decreases d, 0
  {
    hide PrintElements, PrintItems, SortedElements, ElementValues;
    var e, v := Sorted(d), ToValue(d);
    forall i | 0 <= i < |d.items| ensures PrintDoc(e.items[i]) == Print(v.items[i]) {
      SortedElementPrints(d, i);
    }
    PrintsElements(e, 0, v);
  }

  lemma {:induction false} SortedElementPrints(d: Doc, i: nat)
    requires WellFormed(d) && d.List? && i < |d.items|
    ensures PrintDoc(SortedElements(d, 0)[i]) == Print(ElementValues(d, 0)[i])
    decreases d, 0, 0
  {
    hide Sorted, ToValue, ElementValues, SortedElements, PrintDoc, Print;
    ElementAt(d, 0, i);
    assert WellFormed(d.items[i]) && d.items[i] < d;
    SortedPrint(d.items[i]);
  }

  lemma {:induction false} SortedPrintDict(d: Doc)
    requires WellFormed(d) && d.Dict?
    ensures PrintDoc(Sorted(d)) == Print(ToValue(d))
    decreases d, 0
  {
    hide PrintEntries, PrintMembers, SortedEntries, EntryValues, Distinct, Keys;
    var e, v := Sorted(d), ToValue(d);
    SortedEntriesFrom(d, 0);
    forall i | 0 <= i < |e.entries| ensures PrintsIn(v, e.entries[i]) {
      assert e.entries[i] in SortedEntries(d, 0);
      var j: nat :| j < |d.entries| && e.entries[i] == Entry(d.entries[j].key, Sorted(d.entries[j].doc));
      SortedEntryPrints(d, j);
    }
    PrintsEntries(e, 0, v);
    assert e.entries[0..] == e.entries && d.entries[0..] == d.entries;
    KeysSorted(d);
  }

  lemma {:induction false} SortedEntryPrints(d: Doc, j: nat)
    requires WellFormed(d) && d.Dict? && j < |d.entries|
    ensures PrintsIn(ToValue(d), Entry(d.entries[j].key, Sorted(d.entries[j].doc)))
    decreases d, 0, 0
  {
    hide Sorted, EntryValues, Distinct, Keys, Print, PrintDoc;
    EntryValueAt(d, 0, j);
    assert WellFormed(d.entries[j].doc) && d.entries[j].doc < d;
    SortedPrint(d.entries[j].doc);
  }

  lemma KeysSorted(d: Doc)
    requires WellFormed(d) && d.Dict?
    ensures SortedKeys(ToValue(d)) == Sort(Keys(d.entries))
  {
    hide EntryValues, Distinct, Sort;
    var keys, members := Keys(d.entries), ToValue(d).members;
    SortIsInOrder(keys);
    forall key | key in keys ensures key in members {
      var i :| 0 <= i < |keys| && keys[i] == key;
      EntryValueAt(d, 0, i);
    }
    forall key | key in members ensures key in keys {
      if d.entries != [] {
        EntryValueAt(d, 0, 0);
        var i :| 0 <= i < |d.entries| && d.entries[i].key == key;
        assert keys[i] == key;
      } else {
        NoEntries(d);
      }
    }
    assert (set k | k in keys) == members.Keys;
  }

  // ---------- no control characters ----------

  lemma {:induction false} PrintDocPrintable(d: Doc)
    ensures Printable(PrintDoc(d))
    decreases d, 1, 0
  {
    match d
    case Leaf(v) => PrintPrintable(v);
    case List(_) => PrintElementsPrintable(d, 0);
    case Dict(_) => PrintEntriesPrintable(d, 0);
  }

  lemma {:induction false} PrintElementsPrintable(d: Doc, from: nat)
    requires d.List? && from <= |d.items|
    ensures Printable(PrintElements(d, from))
    decreases d, 0, |d.items| - from
  {
    hide PrintDoc;
    if from < |d.items| {
      PrintDocPrintable(d.items[from]);
      PrintElementsPrintable(d, from + 1);
    }
  }

  lemma {:induction false} PrintEntriesPrintable(d: Doc, from: nat)
    requires d.Dict? && from <= |d.entries|
    ensures Printable(PrintEntries(d, from))
    decreases d, 0, |d.entries| - from
  {
    hide PrintDoc, PrintString;
    if from < |d.entries| {
      EscapePrintable(d.entries[from].key);
      PrintDocPrintable(d.entries[from].doc);
      PrintEntriesPrintable(d, from + 1);
    }
  }
}
