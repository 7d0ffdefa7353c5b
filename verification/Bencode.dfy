/** Bencoded values (BEP 3) and how their text is read back.
    A character stands for one byte. Keys are ordered by their bytes,
    and no text is the beginning of another. */
module Bencode {
  import opened Decimals
  import opened Wrappers

  datatype Entry = Entry(key: string, value: Bencode)

  datatype Bencode =
    | Int(value: nat)
    | Text(text: string)
    | List(items: seq<Bencode>)
    | Dict(entries: seq<Entry>)

  function EncodeText(s: string): string {
    Decimal(|s|) + ":" + s
  }

  function Encode(v: Bencode): string
    decreases v
  {
    match v
    case Int(n) => "i" + Decimal(n) + "e"
    case Text(s) => EncodeText(s)
    case List(items) => "l" + EncodeItems(items) + "e"
    case Dict(entries) => "d" + EncodeEntries(entries) + "e"
  }

  function EncodeItems(items: seq<Bencode>): string
    decreases items
  {
    if items == [] then "" else Encode(items[0]) + EncodeItems(items[1..])
  }

  function EncodeEntries(entries: seq<Entry>): string
    decreases entries
  {
    if entries == [] then ""
    else
      assert entries[0].value < entries[0];
      EncodeText(entries[0].key) + Encode(entries[0].value) + EncodeEntries(entries[1..])
  }

  // ----- reading back -----

  function ParseDigits(s: string, value: nat): (r: (nat, string))
    ensures |r.1| <= |s|
  {
    if s == [] || !IsDigit(s[0]) then (value, s)
    else ParseDigits(s[1..], value * 10 + DigitValue(s[0]))
  }

  /** A number and the character that ends it. */
  function ParseNat(s: string, end: char): (r: Option<(nat, string)>)
    ensures r.Some? ==> |r.value.1| < |s|
  {
    var (n, rest) := ParseDigits(s, 0);
    if rest == [] || rest[0] != end then None else Some((n, rest[1..]))
  }

  function ParseText(s: string): (r: Option<(string, string)>)
    ensures r.Some? ==> |r.value.1| < |s|
  {
    match ParseNat(s, ':')
    case None => None
    case Some((n, rest)) => if n > |rest| then None else Some((rest[..n], rest[n..]))
  }

  /** The value at the front of a text, and what follows it. */
  function Parse(s: string): (r: Option<(Bencode, string)>)
    ensures r.Some? ==> |r.value.1| < |s|
    decreases |s|, 0
  {
    if s == [] then None
    else if s[0] == 'i' then
      match ParseNat(s[1..], 'e')
      case None => None
      case Some((n, rest)) => Some((Int(n), rest))
    else if s[0] == 'l' then
      match ParseItems(s[1..])
      case None => None
      case Some((items, rest)) => Some((List(items), rest))
    else if s[0] == 'd' then
      match ParseEntries(s[1..])
      case None => None
      case Some((entries, rest)) => Some((Dict(entries), rest))
    else
      match ParseText(s)
      case None => None
      case Some((text, rest)) => Some((Text(text), rest))
  }

  function ParseItems(s: string): (r: Option<(seq<Bencode>, string)>)
    ensures r.Some? ==> |r.value.1| < |s|
    decreases |s|, 1
  {
    if s == [] then None
    else if s[0] == 'e' then Some(([], s[1..]))
    else
      match Parse(s)
      case None => None
      case Some((v, rest)) =>
        match ParseItems(rest)
        case None => None
        case Some((items, end)) => Some(([v] + items, end))
  }

  function ParseEntries(s: string): (r: Option<(seq<Entry>, string)>)
    ensures r.Some? ==> |r.value.1| < |s|
    decreases |s|, 1
  {
    if s == [] then None
    else if s[0] == 'e' then Some(([], s[1..]))
    else
      match ParseText(s)
      case None => None
      case Some((key, rest)) =>
        match Parse(rest)
        case None => None
        case Some((v, next)) =>
          match ParseEntries(next)
          case None => None
          case Some((entries, end)) => Some(([Entry(key, v)] + entries, end))
  }

  lemma {:induction false} DigitsRead(n: nat, rest: string)
    ensures ParseDigits(Decimal(n) + rest, 0) == ParseDigits(rest, n)
    decreases n
  {
    if n < 10 {
      assert (Decimal(n) + rest)[1..] == rest;
    } else {
      var last := ['0' + (n % 10) as char];
      DigitsRead(n / 10, last + rest);
      assert Decimal(n) + rest == Decimal(n / 10) + (last + rest);
      assert (last + rest)[1..] == rest;
    }
  }

  lemma NatRead(n: nat, end: char, rest: string)
    requires !IsDigit(end)
    ensures ParseNat(Decimal(n) + [end] + rest, end) == Some((n, rest))
  {
    DigitsRead(n, [end] + rest);
    assert Decimal(n) + [end] + rest == Decimal(n) + ([end] + rest);
    assert ([end] + rest)[1..] == rest;
  }

  lemma TextRead(s: string, rest: string)
    ensures ParseText(EncodeText(s) + rest) == Some((s, rest))
    ensures IsDigit((EncodeText(s) + rest)[0])
  {
    NatRead(|s|, ':', s + rest);
    assert EncodeText(s) + rest == Decimal(|s|) + ":" + (s + rest);
    assert (s + rest)[..|s|] == s && (s + rest)[|s|..] == rest;
  }

  lemma StartsWith(v: Bencode, rest: string)
    ensures Encode(v) != [] && Encode(v)[0] != 'e' && (Encode(v) + rest)[0] == Encode(v)[0]
  {
    if v.Text? {
      TextRead(v.text, rest);
    }
  }

  /** Whatever follows, the text of a value reads back as that value. */
  lemma {:induction false} ParseInvertsEncode(v: Bencode, rest: string)
    ensures Parse(Encode(v) + rest) == Some((v, rest))
    decreases v
  {
    hide ParseNat, ParseText, ParseItems, ParseEntries, EncodeItems, EncodeEntries, EncodeText;
    var s := Encode(v) + rest;
    match v
    case Int(n) =>
      NatRead(n, 'e', rest);
      assert s[1..] == Decimal(n) + "e" + rest;
    case Text(t) =>
      TextRead(t, rest);
    case List(items) =>
      ItemsRead(items, rest);
      assert s[1..] == EncodeItems(items) + "e" + rest;
    case Dict(entries) =>
      EntriesRead(entries, rest);
      assert s[1..] == EncodeEntries(entries) + "e" + rest;
  }

  lemma {:induction false} ItemsRead(items: seq<Bencode>, rest: string)
    ensures ParseItems(EncodeItems(items) + "e" + rest) == Some((items, rest))
    decreases items
  {
    hide Parse, Encode;
    var s := EncodeItems(items) + "e" + rest;
    if items == [] {
      assert s == ['e'] + rest;
    } else {
      var tail := EncodeItems(items[1..]) + "e" + rest;
      assert s == Encode(items[0]) + tail;
      StartsWith(items[0], tail);
      ParseInvertsEncode(items[0], tail);
      ItemsRead(items[1..], rest);
      assert items == [items[0]] + items[1..];
    }
  }

  lemma {:induction false} EntriesRead(entries: seq<Entry>, rest: string)
    ensures ParseEntries(EncodeEntries(entries) + "e" + rest) == Some((entries, rest))
    decreases entries
  {
    hide Parse, Encode, ParseText, EncodeText;
    var s := EncodeEntries(entries) + "e" + rest;
    if entries == [] {
      assert s == ['e'] + rest;
    } else {
      var e := entries[0];
      assert e.value < e;
      var tail := EncodeEntries(entries[1..]) + "e" + rest;
      assert s == EncodeText(e.key) + (Encode(e.value) + tail);
      TextRead(e.key, Encode(e.value) + tail);
      ParseInvertsEncode(e.value, tail);
      EntriesRead(entries[1..], rest);
      assert entries == [e] + entries[1..];
    }
  }

  /** No text is the text of two values, nor the beginning of another's. */
  lemma EncodeIsPrefixFree(a: Bencode, b: Bencode, rest: string, other: string)
    requires Encode(a) + rest == Encode(b) + other
    ensures a == b && rest == other
  {
    ParseInvertsEncode(a, rest);
    ParseInvertsEncode(b, other);
  }

  /** The texts by which BEP 3 shows the format. */
  lemma KnownTexts(number: nat, spam: string, eggs: string, cow: string, moo: string)
    requires number == 3 && spam == "spam" && eggs == "eggs" && cow == "cow" && moo == "moo"
    ensures Encode(Int(number)) == "i3e" && Encode(Text(spam)) == "4:spam"
    ensures Encode(List([Text(spam), Text(eggs)])) == "l4:spam4:eggse"
    ensures Encode(Dict([Entry(cow, Text(moo)), Entry(spam, Text(eggs))])) == "d3:cow3:moo4:spam4:eggse"
  {
    hide Encode, EncodeText, EncodeItems, EncodeEntries, Decimal;
    OneDigit(number);
    ShortText(spam);
    ShortText(eggs);
    ShortText(cow);
    ShortText(moo);
    TwoItems(Text(spam), Text(eggs));
    TwoEntries(Entry(cow, Text(moo)), Entry(spam, Text(eggs)));
    EncodeInt(number);
    EncodeList([Text(spam), Text(eggs)]);
    EncodeDict([Entry(cow, Text(moo)), Entry(spam, Text(eggs))]);
  }

  lemma ShortText(s: string)
    requires |s| < 10
    ensures EncodeText(s) == ["0123456789"[|s|]] + ":" + s && Encode(Text(s)) == EncodeText(s)
  {
    OneDigit(|s|);
    hide Decimal;
  }

  lemma EncodeInt(n: nat)
    ensures Encode(Int(n)) == "i" + Decimal(n) + "e"
  {
    hide Decimal;
  }

  lemma EncodeList(items: seq<Bencode>)
    ensures Encode(List(items)) == "l" + EncodeItems(items) + "e"
  {
    hide EncodeItems;
  }

  lemma TwoItems(a: Bencode, b: Bencode)
    ensures EncodeItems([a, b]) == Encode(a) + Encode(b)
  {
    hide Encode;
    assert [a, b][1..] == [b];
    assert EncodeItems([b]) == Encode(b) + EncodeItems([]);
  }

  lemma EncodeDict(e: seq<Entry>)
    ensures Encode(Dict(e)) == "d" + EncodeEntries(e) + "e"
  {
  }

  lemma TwoEntries(a: Entry, b: Entry)
    ensures EncodeEntries([a, b])
         == EncodeText(a.key) + Encode(a.value) + (EncodeText(b.key) + Encode(b.value))
  {
    hide Encode, EncodeText;
    assert [a, b][1..] == [b];
    assert EncodeEntries([b]) == EncodeText(b.key) + Encode(b.value) + EncodeEntries([]);
  }

  // ----- key order -----

  predicate Before(a: string, b: string) {
    b != [] && (a == [] || a[0] < b[0] || (a[0] == b[0] && Before(a[1..], b[1..])))
  }

  lemma {:induction false} BeforeTransitive(a: string, b: string, c: string)
    requires Before(a, b) && Before(b, c)
    ensures Before(a, c)
  {
    if a != [] && a[0] == b[0] && b[0] == c[0] {
      BeforeTransitive(a[1..], b[1..], c[1..]);
    }
  }

  lemma {:induction false} BeforeTotal(a: string, b: string)
    ensures Before(a, b) || Before(b, a) || a == b
  {
    if a != [] && b != [] && a[0] == b[0] {
      BeforeTotal(a[1..], b[1..]);
      if a[1..] == b[1..] {
        assert a == [a[0]] + a[1..] && b == [b[0]] + b[1..];
      }
    }
  }

  /** Keys strictly increase, as the format demands of dictionaries. */
  predicate Sorted(entries: seq<Entry>) {
    forall i, j :: 0 <= i < j < |entries| ==> Before(entries[i].key, entries[j].key)
  }

  /** Dictionaries are sorted at every depth. */
  predicate Canonical(v: Bencode)
    decreases v
  {
    match v
    case List(items) => forall i :: 0 <= i < |items| ==> Canonical(items[i])
    case Dict(entries) => Sorted(entries) && forall i :: 0 <= i < |entries| ==> CanonicalEntry(entries[i])
    case _ => true
  }

  predicate CanonicalEntry(e: Entry)
    decreases e
  {
    Canonical(e.value)
  }

  function Lookup(entries: seq<Entry>, key: string): Option<Bencode> {
    if entries == [] then None
    else if entries[0].key == key then Some(entries[0].value)
    else Lookup(entries[1..], key)
  }

  /** Put an entry in its place, replacing one of the same key. */
  function Insert(entries: seq<Entry>, key: string, value: Bencode): seq<Entry> {
    if entries == [] then [Entry(key, value)]
    else if entries[0].key == key then [Entry(key, value)] + entries[1..]
    else if Before(key, entries[0].key) then [Entry(key, value)] + entries
    else [entries[0]] + Insert(entries[1..], key, value)
  }

  lemma {:induction false} InsertKeys(entries: seq<Entry>, key: string, value: Bencode, i: nat)
    requires i < |Insert(entries, key, value)|
    ensures var e := Insert(entries, key, value)[i]; e == Entry(key, value) || e in entries
    decreases entries
  {
    if entries != [] && entries[0].key != key && !Before(key, entries[0].key) && i > 0 {
      InsertKeys(entries[1..], key, value, i - 1);
    }
  }

  lemma {:induction false} InsertSorted(entries: seq<Entry>, key: string, value: Bencode)
    requires Sorted(entries)
    ensures Sorted(Insert(entries, key, value))
    decreases entries
  {
    if entries != [] {
      var first, tail := entries[0], entries[1..];
      if first.key == key {
      } else if Before(key, first.key) {
        forall j | 0 < j < |entries|
          ensures Before(key, entries[j].key)
        {
          BeforeTransitive(key, first.key, entries[j].key);
        }
      } else {
        BeforeTotal(key, first.key);
        InsertSorted(tail, key, value);
        var rest := Insert(tail, key, value);
        forall j | 0 <= j < |rest|
          ensures Before(first.key, rest[j].key)
        {
          InsertKeys(tail, key, value, j);
        }
      }
    }
  }

  /** Insertion changes what its key stands for and nothing else. */
  lemma {:induction false} LookupInsert(entries: seq<Entry>, key: string, value: Bencode, other: string)
    requires Sorted(entries)
    ensures Lookup(Insert(entries, key, value), other) == if other == key then Some(value) else Lookup(entries, other)
    decreases entries
  {
    if entries != [] && entries[0].key != key && !Before(key, entries[0].key) {
      LookupInsert(entries[1..], key, value, other);
    }
  }
}
