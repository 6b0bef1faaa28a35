/** The language the scanner of `Bencode` accepts.  `Term` is its concrete syntax, so acceptance is an
    if-and-only-if; BEP 3, section "bencoding", is the part of it with canonical numbers. */
module BencodeLanguage {
  import opened Options
  import opened Bencode
  import opened Spans

  // ---------- The accepted language ----------

  datatype Str = Str(len: Bytes, content: Bytes)
  datatype Term = Num(body: Bytes) | Text(str: Str) | Group(isDict: bool, items: Items)
  datatype Items = Nil | Item(key: Option<Str>, val: Term, rest: Items)

  function RawStr(s: Str): Bytes { s.len + ([COLON] + s.content) }

  function Raw(t: Term): Bytes {
    match t
    case Num(body) => [CH_I] + (body + [CH_E])
    case Text(s) => RawStr(s)
    case Group(isDict, items) => [if isDict then CH_D else CH_L] + RawItems(items, [CH_E])
  }

  /** The text of `items` followed by `tail`; a list or dictionary closes with `e`. */
  function RawItems(items: Items, tail: Bytes): Bytes {
    match items
    case Nil => tail
    case Item(None, val, rest) => Raw(val) + RawItems(rest, tail)
    case Item(Some(s), val, rest) => RawStr(s) + (Raw(val) + RawItems(rest, tail))
  }

  ghost predicate StrOk(s: Str) { s.len != [] && AllDigits(s.len) && Decimal(s.len) == |s.content| }

  ghost predicate TermOk(t: Term) {
    match t
    case Num(body) => CH_E !in body
    case Text(s) => StrOk(s)
    case Group(isDict, items) => ItemsOk(items, isDict)
  }

  ghost predicate ItemsOk(items: Items, isDict: bool) {
    match items
    case Nil => true
    case Item(key, val, rest) =>
      (key.Some? <==> isDict) && (key.Some? ==> StrOk(key.value)) && TermOk(val) && ItemsOk(rest, isDict)
  }

  /** `part` sits in `data` at offset `i`. */
  lemma StringComplete(data: Bytes, i: nat, s: Str)
    requires StrOk(s) && At(data, i, RawStr(s))
    ensures StringEnd(data, i) == Some(i + |RawStr(s)|) && StringContent(data, i) == s.content
    ensures IsDigit(data[i])
  {
    AtSplit(data, i, s.len, [COLON] + s.content);
    var j := i + |s.len|;
    AtSplit(data, j, [COLON], s.content);
    AtFirst(data, j, [COLON]);
    AtFirst(data, i, s.len);
    DigitsEndUnique(data, i, j);
  }

  lemma {:induction false} IntComplete(data: Bytes, i: nat, body: Bytes)
    requires CH_E !in body && At(data, i, body + [CH_E])
    ensures IntEnd(data, i) == Some(i + |body| + 1)
    decreases |body|
  {
    AtFirst(data, i, body + [CH_E]);
    if body != [] {
      assert body + [CH_E] == [body[0]] + (body[1..] + [CH_E]);
      AtSplit(data, i, [body[0]], body[1..] + [CH_E]);
      IntComplete(data, i + 1, body[1..]);
    }
  }

  lemma RawFirst(t: Term)
    requires TermOk(t)
    ensures Raw(t) != [] && Raw(t)[0] != CH_E
    ensures Raw(t)[0] == CH_I <==> t.Num?
    ensures Raw(t)[0] == CH_D <==> t.Group? && t.isDict
    ensures Raw(t)[0] == CH_L <==> t.Group? && !t.isDict
  {
    if t.Text? { assert IsDigit(t.str.len[0]); }
  }

  /** Reads one dictionary entry off the front: its key, then the bytes of its value. */
  lemma EntryAt(data: Bytes, i: nat, s: Str, val: Bytes, after: Bytes) returns (k: nat)
    requires StrOk(s) && At(data, i, RawStr(s) + (val + after))
    ensures i < |data| && IsDigit(data[i]) && k <= |data|
    ensures StringEnd(data, i) == Some(k) && StringContent(data, i) == s.content
    ensures At(data, k, val) && At(data, k + |val|, after)
  {
    AtSplit(data, i, RawStr(s), val + after);
    StringComplete(data, i, s);
    k := i + |RawStr(s)|;
    AtSplit(data, k, val, after);
  }

  lemma ItemsStep(data: Bytes, i: nat, isDict: bool, k: nat, v: nat)
    requires i < |data| && data[i] != CH_E && k <= |data|
    requires if isDict then StringEnd(data, i) == Some(k) else k == i
    requires ValueEnd(data, k) == Some(v)
    ensures ItemsEnd(data, i, isDict) == ItemsEnd(data, v, isDict)
  {
  }

  lemma GroupParts(data: Bytes, i: nat, isDict: bool, items: Items)
    requires At(data, i, Raw(Group(isDict, items)))
    ensures At(data, i + 1, RawItems(items, [CH_E]))
    ensures |Raw(Group(isDict, items))| == 1 + |RawItems(items, [CH_E])|
  {
    AtSplit(data, i, [if isDict then CH_D else CH_L], RawItems(items, [CH_E]));
  }

  /** Completeness: a well-formed term is skipped exactly, whatever surrounds it. */
  lemma {:induction false} TermComplete(data: Bytes, i: nat, t: Term)
    requires TermOk(t) && At(data, i, Raw(t))
    ensures ValueEnd(data, i) == Some(i + |Raw(t)|) && data[i] == Raw(t)[0]
    decreases t, 0
  {
    RawFirst(t);
    AtFirst(data, i, Raw(t));
    match t
    case Num(body) =>
      AtSplit(data, i, [CH_I], body + [CH_E]);
      IntComplete(data, i + 1, body);
    case Text(s) => StringComplete(data, i, s);
    case Group(isDict, items) =>
      GroupParts(data, i, isDict, items);
      ItemsComplete(data, i + 1, items, isDict);
  }

  /** Where the value of an item at `i` begins. */
  function ValueAt(i: nat, items: Items): nat
    requires items.Item?
  {
    i + if items.key.Some? then |RawStr(items.key.value)| else 0
  }

  /** The key, the value and the rest of a list, one after the other. */
  ghost predicate PartsAt(data: Bytes, i: nat, items: Items)
    requires items.Item?
  {
    var k := ValueAt(i, items);
    && (items.key.Some? ==> At(data, i, RawStr(items.key.value)))
    && At(data, k, Raw(items.val)) && At(data, k + |Raw(items.val)|, RawItems(items.rest, [CH_E]))
  }

  lemma KeyedItemAt(data: Bytes, i: nat, items: Items)
    requires items.Item? && items.key.Some?
    ensures At(data, i, RawItems(items, [CH_E])) <==> PartsAt(data, i, items)
  {
    var key, val, after := RawStr(items.key.value), Raw(items.val), RawItems(items.rest, [CH_E]);
    assert RawItems(items, [CH_E]) == key + (val + after);
    AtSplit(data, i, key, val + after);
    AtSplit(data, i + |key|, val, after);
  }

  lemma PlainItemAt(data: Bytes, i: nat, items: Items)
    requires items.Item? && items.key.None?
    ensures At(data, i, RawItems(items, [CH_E])) <==> PartsAt(data, i, items)
  {
    AtSplit(data, i, Raw(items.val), RawItems(items.rest, [CH_E]));
  }

  /** One item and the rest of its list, apart and together. */
  lemma ItemAt(data: Bytes, i: nat, items: Items)
    requires items.Item?
    ensures At(data, i, RawItems(items, [CH_E])) <==> PartsAt(data, i, items)
    ensures i + |RawItems(items, [CH_E])| == ValueAt(i, items) + |Raw(items.val)| + |RawItems(items.rest, [CH_E])|
  {
    if items.key.Some? {
      KeyedItemAt(data, i, items);
    } else {
      PlainItemAt(data, i, items);
    }
  }

  lemma KeyComplete(data: Bytes, i: nat, items: Items, isDict: bool) returns (k: nat)
    requires ItemsOk(items, isDict) && items.Item? && At(data, i, RawItems(items, [CH_E]))
    ensures k == ValueAt(i, items)
    ensures i < |data| && data[i] != CH_E && k <= |data| && if isDict then StringEnd(data, i) == Some(k) else k == i
    ensures At(data, k, Raw(items.val)) && At(data, k + |Raw(items.val)|, RawItems(items.rest, [CH_E]))
  {
    ItemAt(data, i, items);
    k := i;
    if items.key.Some? {
      StringComplete(data, i, items.key.value);
      k := i + |RawStr(items.key.value)|;
    } else {
      RawFirst(items.val);
      AtFirst(data, i, Raw(items.val));
    }
  }

  /** Reads the first item: the scan goes on at the rest of the list. */
  lemma {:induction false} ItemComplete(data: Bytes, i: nat, items: Items, isDict: bool) returns (v: nat)
    requires ItemsOk(items, isDict) && items.Item? && At(data, i, RawItems(items, [CH_E]))
    ensures v + |RawItems(items.rest, [CH_E])| == i + |RawItems(items, [CH_E])|
    ensures At(data, v, RawItems(items.rest, [CH_E])) && v <= |data|
    ensures i < |data| && ItemsEnd(data, i, isDict) == ItemsEnd(data, v, isDict)
    decreases items, 1
  {
    var k := KeyComplete(data, i, items, isDict);
    v := k + |Raw(items.val)|;
    TermComplete(data, k, items.val);
    ItemsStep(data, i, isDict, k, v);
    ItemAt(data, i, items);
  }

  lemma {:induction false} ItemsComplete(data: Bytes, i: nat, items: Items, isDict: bool)
    requires ItemsOk(items, isDict) && At(data, i, RawItems(items, [CH_E]))
    ensures i <= |data| && ItemsEnd(data, i, isDict) == Some(i + |RawItems(items, [CH_E])|)
    decreases items, 2
  {
    if items.Nil? {
      AtFirst(data, i, [CH_E]);
    } else {
      var v := ItemComplete(data, i, items, isDict);
      ItemsComplete(data, v, items.rest, isDict);
    }
  }

  lemma StringSound(data: Bytes, i: nat) returns (s: Str)
    requires i <= |data| && StringEnd(data, i).Some?
    ensures StrOk(s) && i + |RawStr(s)| == StringEnd(data, i).value && At(data, i, RawStr(s))
    ensures s.content == StringContent(data, i)
  {
    var j := DigitsEnd(data, i);
    s := Str(data[i..j], StringContent(data, i));
    AtSplit(data, j, [COLON], s.content);
    AtSplit(data, i, s.len, [COLON] + s.content);
  }

  lemma {:induction false} IntSound(data: Bytes, i: nat) returns (body: Bytes)
    requires i <= |data| && IntEnd(data, i).Some?
    ensures CH_E !in body && IntEnd(data, i).value == i + |body| + 1 && At(data, i, body + [CH_E])
    decreases |data| - i
  {
    if data[i] == CH_E {
      body := [];
    } else {
      var rest := IntSound(data, i + 1);
      body := [data[i]] + rest;
      AtSplit(data, i, [data[i]], rest + [CH_E]);
      assert body + [CH_E] == [data[i]] + (rest + [CH_E]);
    }
  }

  lemma NumAt(data: Bytes, i: nat, body: Bytes)
    requires i < |data| && data[i] == CH_I && At(data, i + 1, body + [CH_E])
    ensures At(data, i, Raw(Num(body))) && i + |Raw(Num(body))| == i + |body| + 2
  {
    AtSplit(data, i, [CH_I], body + [CH_E]);
  }

  lemma GroupAt(data: Bytes, i: nat, isDict: bool, items: Items)
    requires i < |data| && data[i] == (if isDict then CH_D else CH_L) && At(data, i + 1, RawItems(items, [CH_E]))
    ensures At(data, i, Raw(Group(isDict, items)))
    ensures |Raw(Group(isDict, items))| == 1 + |RawItems(items, [CH_E])|
  {
    AtSplit(data, i, [if isDict then CH_D else CH_L], RawItems(items, [CH_E]));
  }

  /** Soundness: whatever is accepted is the text of some well-formed term. */
  lemma {:induction false} TermSound(data: Bytes, i: nat) returns (t: Term)
    requires i <= |data| && ValueEnd(data, i).Some?
    ensures TermOk(t) && i + |Raw(t)| == ValueEnd(data, i).value && At(data, i, Raw(t))
    decreases |data| - i, 0
  {
    if data[i] == CH_I {
      var body := IntSound(data, i + 1);
      t := Num(body);
      NumAt(data, i, body);
    } else if data[i] == CH_L || data[i] == CH_D {
      var items := ItemsSound(data, i + 1, data[i] == CH_D);
      t := Group(data[i] == CH_D, items);
      GroupAt(data, i, data[i] == CH_D, items);
    } else {
      var s := StringSound(data, i);
      t := Text(s);
    }
  }

  /** The key (in a dictionary) and the value of the item at i; the scan goes on at v. */
  lemma {:induction false} ItemSound(data: Bytes, i: nat, isDict: bool) returns (key: Option<Str>, val: Term, v: nat)
    requires i < |data| && data[i] != CH_E && ItemsEnd(data, i, isDict).Some?
    ensures (key.Some? <==> isDict) && (key.Some? ==> StrOk(key.value) && At(data, i, RawStr(key.value))) && TermOk(val)
    ensures var k := i + if key.Some? then |RawStr(key.value)| else 0;
            At(data, k, Raw(val)) && v == k + |Raw(val)|
    ensures i < v <= |data| && ItemsEnd(data, i, isDict) == ItemsEnd(data, v, isDict)
    decreases |data| - i, 1
  {
    var k := i;
    key := None;
    if isDict {
      var s := StringSound(data, i);
      k, key := StringEnd(data, i).value, Some(s);
    }
    val := TermSound(data, k);
    v := ValueEnd(data, k).value;
  }

  lemma {:induction false} ItemsSound(data: Bytes, i: nat, isDict: bool) returns (items: Items)
    requires i <= |data| && ItemsEnd(data, i, isDict).Some?
    ensures ItemsOk(items, isDict)
    ensures i + |RawItems(items, [CH_E])| == ItemsEnd(data, i, isDict).value
    ensures At(data, i, RawItems(items, [CH_E]))
    decreases |data| - i, 2
  {
    if data[i] == CH_E {
      items := Nil;
    } else {
      var key, val, v := ItemSound(data, i, isDict);
      var rest := ItemsSound(data, v, isDict);
      items := ItemsJoin(data, i, isDict, key, val, v, rest);
    }
  }

  lemma ItemsJoin(data: Bytes, i: nat, isDict: bool, key: Option<Str>, val: Term, v: nat, rest: Items)
    returns (items: Items)
    requires (key.Some? <==> isDict) && (key.Some? ==> StrOk(key.value) && At(data, i, RawStr(key.value)))
    requires TermOk(val) && ItemsOk(rest, isDict)
    requires var k := i + if key.Some? then |RawStr(key.value)| else 0;
             At(data, k, Raw(val)) && v == k + |Raw(val)|
    requires At(data, v, RawItems(rest, [CH_E]))
    ensures ItemsOk(items, isDict) && At(data, i, RawItems(items, [CH_E]))
    ensures i + |RawItems(items, [CH_E])| == v + |RawItems(rest, [CH_E])|
  {
    items := Item(key, val, rest);
    ItemAt(data, i, items);
  }

  /** The scanner stops at `end` exactly when the bytes in between are one term. */
  lemma SkipIff(data: Bytes, i: nat, end: nat)
    requires i <= |data|
    ensures ValueEnd(data, i) == Some(end) <==>
            exists t :: TermOk(t) && i + |Raw(t)| == end && At(data, i, Raw(t))
  {
    if ValueEnd(data, i) == Some(end) {
      var t := TermSound(data, i);
    }
    if t :| TermOk(t) && i + |Raw(t)| == end && At(data, i, Raw(t)) {
      TermComplete(data, i, t);
    }
  }

  /** Locality: an accepted span is accepted with any other bytes around it. */
  lemma SkipIsLocal(data: Bytes, i: nat, pre: Bytes, post: Bytes)
    requires i <= |data| && ValueEnd(data, i).Some?
    ensures var span := data[i..ValueEnd(data, i).value];
            ValueEnd(pre + span + post, |pre|) == Some(|pre| + |span|)
  {
    var t := TermSound(data, i);
    TermComplete(pre + Raw(t) + post, |pre|, t);
  }

  // ---------- The info span ----------

  ghost predicate NoInfo(items: Items) {
    items.Item? ==> items.key.Some? && items.key.value.content != INFO && NoInfo(items.rest)
  }

  ghost predicate IsInfo(key: Str, info: Term) {
    StrOk(key) && key.content == INFO && TermOk(info) && info.Group? && info.isDict
  }

  /** `data` opens a dictionary whose first `info` key is followed by the dictionary `info`. */
  ghost predicate InfoShape(data: Bytes, before: Items, key: Str, info: Term) {
    && ItemsOk(before, true) && NoInfo(before) && IsInfo(key, info)
    && At(data, 0, [CH_D] + RawItems(before, RawStr(key) + Raw(info)))
  }

  /** What the scan from `i` on hashes. */
  ghost function InfoAfter(data: Bytes, i: nat): Option<Bytes>
    requires i <= |data|
  {
    InfoFrom(data, i)
  }

  lemma InfoStep(data: Bytes, i: nat, k: nat, v: nat)
    requires i < |data| && data[i] != CH_E && k < v <= |data|
    requires StringEnd(data, i) == Some(k) && ValueEnd(data, k) == Some(v)
    ensures InfoAfter(data, i) ==
            if StringContent(data, i) != INFO then InfoAfter(data, v)
            else if data[k] == CH_D then Some(data[k..v]) else None
  {
  }

  /** The value at k, as the scanner sees it. */
  lemma ValueRead(data: Bytes, k: nat, t: Term) returns (v: nat)
    requires TermOk(t) && At(data, k, Raw(t))
    ensures k < v <= |data| && ValueEnd(data, k) == Some(v) && v == k + |Raw(t)| && data[k..v] == Raw(t)
    ensures data[k] == CH_D <==> t.Group? && t.isDict
  {
    RawFirst(t);
    TermComplete(data, k, t);
    v := ValueEnd(data, k).value;
  }

  /** What the top-level loop does with one well-formed entry. */
  lemma InfoEntry(data: Bytes, i: nat, s: Str, t: Term, after: Bytes) returns (v: nat)
    requires StrOk(s) && TermOk(t) && At(data, i, RawStr(s) + (Raw(t) + after))
    ensures i <= |data| && v <= |data| && At(data, v, after)
    ensures InfoAfter(data, i) ==
            if s.content != INFO then InfoAfter(data, v) else if t.Group? && t.isDict then Some(Raw(t)) else None
  {
    var k := EntryAt(data, i, s, Raw(t), after);
    v := ValueRead(data, k, t);
    InfoStep(data, i, k, v);
  }

  lemma InfoHere(data: Bytes, i: nat, key: Str, info: Term)
    requires IsInfo(key, info) && At(data, i, RawStr(key) + Raw(info))
    ensures i <= |data| && InfoAfter(data, i) == Some(Raw(info))
  {
    assert Raw(info) + [] == Raw(info);
    var v := InfoEntry(data, i, key, info, []);
  }

  /** The scan passes over the entries before `tail`. */
  lemma {:induction false} InfoSkips(data: Bytes, i: nat, before: Items, tail: Bytes) returns (v: nat)
    requires ItemsOk(before, true) && NoInfo(before) && At(data, i, RawItems(before, tail))
    ensures At(data, v, tail) && i <= |data| && v <= |data| && InfoAfter(data, i) == InfoAfter(data, v)
    decreases before
  {
    match before
    case Nil => v := i;
    case Item(some, val, rest) =>
      var next := InfoEntry(data, i, some.value, val, RawItems(rest, tail));
      v := InfoSkips(data, next, rest, tail);
  }

  lemma InfoFromComplete(data: Bytes, i: nat, before: Items, key: Str, info: Term)
    requires ItemsOk(before, true) && NoInfo(before) && IsInfo(key, info)
    requires At(data, i, RawItems(before, RawStr(key) + Raw(info)))
    ensures i <= |data| && InfoAfter(data, i) == Some(Raw(info))
  {
    var v := InfoSkips(data, i, before, RawStr(key) + Raw(info));
    InfoHere(data, v, key, info);
  }

  lemma EntryJoin(data: Bytes, i: nat, s: Str, val: Term, rest: Items, tail: Bytes) returns (all: Items)
    requires At(data, i, RawStr(s)) && At(data, i + |RawStr(s)|, Raw(val))
    requires At(data, i + |RawStr(s)| + |Raw(val)|, RawItems(rest, tail))
    ensures all == Item(Some(s), val, rest) && At(data, i, RawItems(all, tail))
  {
    all := Item(Some(s), val, rest);
    AtSplit(data, i + |RawStr(s)|, Raw(val), RawItems(rest, tail));
    AtSplit(data, i, RawStr(s), Raw(val) + RawItems(rest, tail));
  }

  /** The entry at i, whose value is hashed when its key is `info`. */
  lemma EntrySound(data: Bytes, i: nat) returns (s: Str, val: Term, v: nat)
    requires i <= |data| && InfoAfter(data, i).Some?
    ensures StrOk(s) && TermOk(val) && v == i + |RawStr(s)| + |Raw(val)| && i < v <= |data|
    ensures At(data, i, RawStr(s)) && At(data, i + |RawStr(s)|, Raw(val))
    ensures if s.content == INFO then InfoAfter(data, i) == Some(Raw(val)) && val.Group? && val.isDict
            else InfoAfter(data, i) == InfoAfter(data, v)
  {
    var k := StringEnd(data, i).value;
    s := StringSound(data, i);
    val := TermSound(data, k);
    v := ValueEnd(data, k).value;
    RawFirst(val);
    AtFirst(data, k, Raw(val));
  }

  lemma {:induction false} InfoFromSound(data: Bytes, i: nat) returns (before: Items, key: Str, info: Term)
    requires i <= |data| && InfoAfter(data, i).Some?
    ensures ItemsOk(before, true) && NoInfo(before) && IsInfo(key, info)
    ensures InfoAfter(data, i) == Some(Raw(info))
    ensures At(data, i, RawItems(before, RawStr(key) + Raw(info)))
    decreases |data| - i
  {
    var s, val, v := EntrySound(data, i);
    if s.content == INFO {
      before, key, info := Nil, s, val;
      AtSplit(data, i, RawStr(key), Raw(info));
    } else {
      var rest;
      rest, key, info := InfoFromSound(data, v);
      before := EntryJoin(data, i, s, val, rest, RawStr(key) + Raw(info));
    }
  }

  /** The hashed bytes are exactly the first `info` entry's dictionary, and a hash is
      produced for no other input. */
  lemma InfoBytesIff(data: Bytes, span: Bytes)
    ensures InfoBytes(data) == Some(span) <==>
            exists before, key, info :: InfoShape(data, before, key, info) && span == Raw(info)
  {
    if InfoBytes(data) == Some(span) {
      var before, key, info := InfoFromSound(data, 1);
      AtSplit(data, 0, [CH_D], RawItems(before, RawStr(key) + Raw(info)));
      assert InfoShape(data, before, key, info);
    }
    forall before, key, info | InfoShape(data, before, key, info) && span == Raw(info)
      ensures InfoBytes(data) == Some(span)
    {
      AtSplit(data, 0, [CH_D], RawItems(before, RawStr(key) + Raw(info)));
      AtFirst(data, 0, [CH_D]);
      InfoFromComplete(data, 1, before, key, info);
    }
  }

  // ---------- BEP 3 values and their canonical encoding ----------

  datatype Value = VInt(n: int) | VString(content: Bytes) | VGroup(isDict: bool, entries: Entries)
  datatype Entries = End | Entry(key: Bytes, val: Value, rest: Entries)

  function Digits(n: nat): (s: Bytes)
    ensures s != [] && AllDigits(s) && Decimal(s) == n
  {
    var last := [ZERO + (n % 10) as byte];
    if n < 10 then
      assert last[..0] == [];
      last
    else
      assert (Digits(n / 10) + last)[..|Digits(n / 10)|] == Digits(n / 10);
      Digits(n / 10) + last
  }

  function Canonical(v: Value): Term {
    match v
    case VInt(n) => Num(if n < 0 then [45] + Digits(-n) else Digits(n))
    case VString(s) => Text(Str(Digits(|s|), s))
    case VGroup(isDict, entries) => Group(isDict, CanonicalItems(entries, isDict))
  }

  function CanonicalItems(entries: Entries, isDict: bool): Items {
    match entries
    case End => Nil
    case Entry(key, val, rest) =>
      Item(if isDict then Some(Str(Digits(|key|), key)) else None, Canonical(val), CanonicalItems(rest, isDict))
  }

  function Encode(v: Value): Bytes { Raw(Canonical(v)) }

  lemma {:induction false} CanonicalOk(v: Value)
    ensures TermOk(Canonical(v))
    decreases v, 0
  {
    match v
    case VInt(n) => assert forall b :: b in Digits(if n < 0 then -n else n) ==> IsDigit(b);
    case VString(_) =>
    case VGroup(isDict, entries) => CanonicalItemsOk(entries, isDict);
  }

  lemma {:induction false} CanonicalItemsOk(entries: Entries, isDict: bool)
    ensures ItemsOk(CanonicalItems(entries, isDict), isDict)
    decreases entries, 1
  {
    if entries.Entry? {
      CanonicalOk(entries.val);
      CanonicalItemsOk(entries.rest, isDict);
    }
  }

  /** Every encoded value is skipped exactly, after any prefix and before any suffix. */
  lemma SkipsEveryEncoding(v: Value, pre: Bytes, post: Bytes)
    ensures ValueEnd(pre + Encode(v) + post, |pre|) == Some(|pre| + |Encode(v)|)
  {
    CanonicalOk(v);
    TermComplete(pre + Encode(v) + post, |pre|, Canonical(v));
  }

  function FirstInfo(entries: Entries): Option<Value> {
    match entries
    case End => None
    case Entry(key, val, rest) => if key == INFO then Some(val) else FirstInfo(rest)
  }

  /** The encoding of the first `info` value, when that is a dictionary. */
  function EncodedInfo(entries: Entries): Option<Bytes> {
    match FirstInfo(entries)
    case Some(info) => if info.VGroup? && info.isDict then Some(Encode(info)) else None
    case None => None
  }

  /** What the top-level loop does with the first entry of an encoded dictionary. */
  lemma EncodedEntry(data: Bytes, i: nat, key: Bytes, val: Value, after: Bytes) returns (v: nat)
    requires At(data, i, RawStr(Str(Digits(|key|), key)) + (Encode(val) + after))
    ensures i <= |data| && v <= |data| && At(data, v, after)
    ensures InfoAfter(data, i) ==
            if key != INFO then InfoAfter(data, v) else if val.VGroup? && val.isDict then Some(Encode(val)) else None
  {
    var s, t := Str(Digits(|key|), key), Canonical(val);
    CanonicalOk(val);
    v := InfoEntry(data, i, s, t, after);
  }

  lemma {:induction false} InfoFromEncoding(data: Bytes, i: nat, entries: Entries)
    requires At(data, i, RawItems(CanonicalItems(entries, true), [CH_E]))
    ensures i <= |data| && InfoAfter(data, i) == EncodedInfo(entries)
    decreases entries
  {
    match entries
    case End => AtFirst(data, i, [CH_E]);
    case Entry(key, val, rest) =>
      var v := EncodedEntry(data, i, key, val, RawItems(CanonicalItems(rest, true), [CH_E]));
      if key != INFO {
        InfoFromEncoding(data, v, rest);
      }
  }

  /** An encoded torrent file, trailing bytes or not, hashes exactly the encoding of
      its first `info` value, and hashes nothing when that is not a dictionary. */
  lemma InfohashOfEncodedTorrent(entries: Entries, post: Bytes)
    ensures InfoBytes(Encode(VGroup(true, entries)) + post) == EncodedInfo(entries)
  {
    var data := Encode(VGroup(true, entries)) + post;
    AtSplit(data, 0, [CH_D], RawItems(CanonicalItems(entries, true), [CH_E]));
    InfoFromEncoding(data, 1, entries);
  }
}
