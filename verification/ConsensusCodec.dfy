/** nir/consensus_codec.py: the canonical encoding as a function of values, a decoder for
    it, and what the two together imply. */
module ConsensusCodec {
  import opened Ordering
  import opened Results
  import opened BigEndian
  import Utf8

  const ENCODING_VERSION := 1
  const MAX_SAFE_INTEGER := 9_007_199_254_740_991
  const MAX_DEPTH := 64
  const MAX_CONTAINER_ENTRIES := 100_000
  const MAX_STRING_BYTES := 16 * 1024 * 1024
  const MAX_ENCODED_BYTES := 64 * 1024 * 1024

  datatype Key = TextKey(text: Text) | OtherKey

  datatype Entry = Entry(key: Key, value: Value)

  /** Python values as the encoder distinguishes them; a dict keeps its insertion order. */
  datatype Value =
    | Null
    | Bool(b: bool)
    | Int(n: int)
    | Str(text: Text)
    | List(items: seq<Value>)
    | Dict(entries: seq<Entry>)
    | Unsupported

  /** What a value means: a dict is a map, whatever order its fields were added in. */
  datatype Data =
    | DNull
    | DBool(b: bool)
    | DInt(n: int)
    | DStr(text: Text)
    | DList(items: seq<Data>)
    | DMap(fields: map<Text, Data>)

  /** unicodedata.normalize("NFC", key) == key, a table this model does not contain. */
  type Normal = Text -> bool

  // ----- The encoding

  function KeyText(k: Key): Text {
    match k case TextKey(t) => t case OtherKey => []
  }

  function Framed(s: seq<Byte>): seq<Byte> {
    [4] + Pack(|s|, 4) + s
  }

  function TwosComplement(n: int): nat {
    (if n < 0 then n + 0x1_0000_0000_0000_0000 else n) % 0x1_0000_0000_0000_0000
  }

  /** One dict field, ready to be put in order: its key and its value's bytes and meaning. */
  datatype Slot = Slot(key: Text, bytes: seq<Byte>, data: Data)

  predicate SlotLeq(a: Slot, b: Slot) {
    LexLeq(Utf8.Encode(a.key), Utf8.Encode(b.key))
  }

  function Bytes(v: Value): seq<Byte>
    decreases v, 0
  {
    match v
    case Null => [0]
    case Bool(b) => if b then [2] else [1]
    case Int(n) => [3] + Pack(TwosComplement(n), 8)
    case Str(t) => Framed(Utf8.Encode(t))
    case List(items) => [5] + Pack(|items|, 4) + ItemBytes(items)
    case Dict(entries) => [6] + Pack(|entries|, 4) + SlotBytes(Sort(SlotLeq, Slots(entries)))
    case Unsupported => []
  }

  function ItemBytes(items: seq<Value>): seq<Byte>
    decreases items, 0
  {
    if items == [] then [] else Bytes(items[0]) + ItemBytes(items[1..])
  }

  function Slots(entries: seq<Entry>): (slots: seq<Slot>)
    ensures |slots| == |entries|
    decreases entries, 0
  {
    if entries == [] then []
    else [SlotOf(entries[0])] + Slots(entries[1..])
  }

  function SlotOf(e: Entry): Slot
    decreases e, 0
  {
    Slot(KeyText(e.key), Bytes(e.value), Meaning(e.value))
  }

  function SlotBytes(slots: seq<Slot>): seq<Byte> {
    if slots == [] then []
    else Framed(Utf8.Encode(slots[0].key)) + slots[0].bytes + SlotBytes(slots[1..])
  }

  function Meaning(v: Value): Data
    decreases v, 0
  {
    match v
    case Null => DNull
    case Bool(b) => DBool(b)
    case Int(n) => DInt(n)
    case Str(t) => DStr(t)
    case List(items) => DList(ItemMeanings(items))
    case Dict(entries) => DMap(FieldMap(Slots(entries)))
    case Unsupported => DNull
  }

  function ItemMeanings(items: seq<Value>): (r: seq<Data>)
    ensures |r| == |items|
    decreases items, 0
  {
    if items == [] then [] else [Meaning(items[0])] + ItemMeanings(items[1..])
  }

  function FieldMap(slots: seq<Slot>): map<Text, Data> {
    if slots == [] then map[] else FieldMap(slots[1..])[slots[0].key := slots[0].data]
  }

  // ----- Which values the encoder accepts, apart from the size of the output

  predicate AcceptsText(t: Text) {
    Utf8.Encodable(t) && |Utf8.Encode(t)| <= MAX_STRING_BYTES
  }

  predicate AcceptsKey(k: Key, normal: Normal) {
    k.TextKey? && AcceptsText(k.text) && normal(k.text)
  }

  predicate Accepts(v: Value, depth: nat, normal: Normal)
    decreases v
  {
    && depth <= MAX_DEPTH
    && match v {
         case Null => true
         case Bool(_) => true
         case Int(n) => -MAX_SAFE_INTEGER <= n <= MAX_SAFE_INTEGER
         case Str(t) => AcceptsText(t)
         case List(items) =>
           && |items| <= MAX_CONTAINER_ENTRIES
           && forall i | 0 <= i < |items| :: Accepts(items[i], depth + 1, normal)
         case Dict(entries) =>
           && |entries| <= MAX_CONTAINER_ENTRIES
           && (forall i | 0 <= i < |entries| :: AcceptsKey(entries[i].key, normal))
           && forall i | 0 <= i < |entries| :: Accepts(entries[i].value, depth + 1, normal)
         case Unsupported => false
       }
  }

  ghost predicate DistinctKeys(entries: seq<Entry>) {
    forall i, j | 0 <= i < j < |entries| :: entries[i].key != entries[j].key
  }

  /** What Python guarantees of every dict: no key twice. */
  ghost predicate Wellformed(v: Value)
    decreases v
  {
    match v
    case List(items) => forall i | 0 <= i < |items| :: Wellformed(items[i])
    case Dict(entries) => DistinctKeys(entries) && forall i | 0 <= i < |entries| :: Wellformed(entries[i].value)
    case _ => true
  }

  // ----- A strict decoder, as the specification the encoder is measured against: the keys of a
  // map must come in order, and none twice

  function Decode(s: seq<Byte>): (r: Option<(Data, seq<Byte>)>)
    ensures r.Some? ==> |r.value.1| < |s|
    decreases |s|, 0
  {
    if s == [] then None
    else if s[0] == 0 then Some((DNull, s[1..]))
    else if s[0] == 1 then Some((DBool(false), s[1..]))
    else if s[0] == 2 then Some((DBool(true), s[1..]))
    else if s[0] == 3 then
      if |s| < 9 then None
      else
        var n := Unpack(s[1..9]);
        Some((DInt(if n >= 0x8000_0000_0000_0000 then n - 0x1_0000_0000_0000_0000 else n), s[9..]))
    else if s[0] == 4 then
      match DecodeText(s)
      case None => None
      case Some((t, rest)) => Some((DStr(t), rest))
    else if |s| < 5 then None
    else if s[0] == 5 then
      match DecodeItems(Unpack(s[1..5]), s[5..])
      case None => None
      case Some((items, rest)) => Some((DList(items), rest))
    else if s[0] == 6 then
      match DecodeFields(Unpack(s[1..5]), s[5..], None)
      case None => None
      case Some((fields, rest)) => Some((DMap(fields), rest))
    else None
  }

  function DecodeText(s: seq<Byte>): (r: Option<(Text, seq<Byte>)>)
    ensures r.Some? ==> |r.value.1| + 5 <= |s|
  {
    if |s| < 5 || s[0] != 4 then None
    else
      var n := Unpack(s[1..5]);
      if |s| < 5 + n then None
      else
        match Utf8.Decode(s[5..5 + n])
        case None => None
        case Some(t) => Some((t, s[5 + n..]))
  }

  function DecodeItems(n: nat, s: seq<Byte>): (r: Option<(seq<Data>, seq<Byte>)>)
    ensures r.Some? ==> |r.value.1| <= |s|
    decreases |s|, n + 1
  {
    if n == 0 then Some(([], s))
    else
      match Decode(s)
      case None => None
      case Some((d, rest)) =>
        match DecodeItems(n - 1, rest)
        case None => None
        case Some((ds, left)) => Some(([d] + ds, left))
  }

  /** The bytes of each key must be above those of the key before it. */
  function DecodeFields(n: nat, s: seq<Byte>, before: Option<seq<Byte>>): (r: Option<(map<Text, Data>, seq<Byte>)>)
    ensures r.Some? ==> |r.value.1| <= |s|
    decreases |s|, n + 1
  {
    if n == 0 then Some((map[], s))
    else
      match DecodeText(s)
      case None => None
      case Some((k, s1)) =>
        var key := s[5..|s| - |s1|];
        if before.Some? && !Below(before.value, key) then None
        else
          match Decode(s1)
          case None => None
          case Some((d, s2)) =>
            match DecodeFields(n - 1, s2, Some(key))
            case None => None
            case Some((m, left)) => Some((m[k := d], left))
  }

  // ----- Round trip

  lemma FramedDecodes(t: Text, rest: seq<Byte>)
    requires |Utf8.Encode(t)| < 0x1_0000_0000
    ensures DecodeText(Framed(Utf8.Encode(t)) + rest) == Some((t, rest))
    ensures var s := Framed(Utf8.Encode(t)) + rest; s[5..|s| - |rest|] == Utf8.Encode(t)
  {
    var b := Utf8.Encode(t);
    var s := Framed(b) + rest;
    Widths();
    UnpackPack(|b|, 4);
    Utf8.DecodeEncode(t);
    assert s[1..5] == Pack(|b|, 4);
    assert s[5..5 + |b|] == b;
    assert s[5 + |b|..] == rest;
  }

  lemma IntDecodes(n: int, rest: seq<Byte>)
    requires -MAX_SAFE_INTEGER <= n <= MAX_SAFE_INTEGER
    ensures Decode([3] + Pack(TwosComplement(n), 8) + rest) == Some((DInt(n), rest))
  {
    var s := [3] + Pack(TwosComplement(n), 8) + rest;
    Widths();
    UnpackPack(TwosComplement(n), 8);
    assert s[1..9] == Pack(TwosComplement(n), 8);
    assert s[9..] == rest;
  }

  lemma HeaderDecodes(tag: Byte, n: nat, body: seq<Byte>)
    requires n < 0x1_0000_0000
    ensures var s := [tag] + Pack(n, 4) + body;
            Unpack(s[1..5]) == n && s[5..] == body
  {
    Widths();
    UnpackPack(n, 4);
    var s := [tag] + Pack(n, 4) + body;
    assert s[1..5] == Pack(n, 4);
    assert s[5..] == body;
  }

  /** The bytes of one field decode to its meaning, whatever follows them. */
  ghost predicate SlotDecodes(s: Slot) {
    && |Utf8.Encode(s.key)| <= MAX_STRING_BYTES
    && forall rest :: Decode(s.bytes + rest) == Some((s.data, rest))
  }

  /** Of any two fields the earlier one has the lower key. */
  ghost predicate KeysAscend(slots: seq<Slot>) {
    forall i, j | 0 <= i < j < |slots| :: Below(Utf8.Encode(slots[i].key), Utf8.Encode(slots[j].key))
  }

  lemma {:induction false} FieldsDecode(slots: seq<Slot>, rest: seq<Byte>, before: Option<seq<Byte>>)
    requires forall i | 0 <= i < |slots| :: SlotDecodes(slots[i])
    requires KeysAscend(slots) && (before.Some? && slots != [] ==> Below(before.value, Utf8.Encode(slots[0].key)))
    ensures DecodeFields(|slots|, SlotBytes(slots) + rest, before) == Some((FieldMap(slots), rest))
  {
    hide Utf8.Encode, Framed, Decode, DecodeText, Below;
    if slots == [] {
      assert SlotBytes(slots) + rest == rest;
    } else {
      FieldsDecode(slots[1..], rest, Some(Utf8.Encode(slots[0].key)));
      var tail := SlotBytes(slots[1..]) + rest;
      FramedDecodes(slots[0].key, slots[0].bytes + tail);
      assert SlotDecodes(slots[0]);
      assert SlotBytes(slots) + rest == Framed(Utf8.Encode(slots[0].key)) + (slots[0].bytes + tail);
    }
  }

  lemma {:induction false} SlotAt(entries: seq<Entry>, i: nat)
    requires i < |entries|
    ensures Slots(entries)[i] == SlotOf(entries[i])
  {
    if i > 0 {
      SlotAt(entries[1..], i - 1);
    }
  }

  ghost predicate DistinctSlots(slots: seq<Slot>) {
    forall i, j | 0 <= i < j < |slots| :: slots[i].key != slots[j].key
  }

  lemma {:induction false} FieldMapHas(slots: seq<Slot>)
    requires DistinctSlots(slots)
    ensures forall k :: k in FieldMap(slots) <==> exists i :: 0 <= i < |slots| && slots[i].key == k
    ensures forall i | 0 <= i < |slots| :: slots[i].key in FieldMap(slots) && FieldMap(slots)[slots[i].key] == slots[i].data
  {
    if slots != [] {
      var tail := slots[1..];
      FieldMapHas(tail);
      forall k ensures k in FieldMap(slots) <==> exists i :: 0 <= i < |slots| && slots[i].key == k {
        if k in FieldMap(slots) && k != slots[0].key {
          var i :| 0 <= i < |tail| && tail[i].key == k;
          assert slots[i + 1].key == k;
        }
        if i :| 0 <= i < |slots| && slots[i].key == k {
          assert i == 0 || tail[i - 1].key == k;
        }
      }
      forall i | 0 <= i < |slots|
        ensures slots[i].key in FieldMap(slots) && FieldMap(slots)[slots[i].key] == slots[i].data
      {
        if i > 0 {
          assert tail[i - 1] == slots[i];
          assert slots[0].key != slots[i].key;
        }
      }
    }
  }

  lemma SlotOrder()
    ensures TotalPreorder(SlotLeq)
  {
    LexOrder();
    forall a: Slot, b: Slot ensures SlotLeq(a, b) || SlotLeq(b, a) {
      LexTotal(Utf8.Encode(a.key), Utf8.Encode(b.key));
    }
    forall a: Slot, b: Slot, c: Slot | SlotLeq(a, b) && SlotLeq(b, c) ensures SlotLeq(a, c) {
      LexTransitive(Utf8.Encode(a.key), Utf8.Encode(b.key), Utf8.Encode(c.key));
    }
  }

  /** Keys order fields completely: no two fields share the bytes of a key. */
  lemma SlotsAntisymmetric(slots: seq<Slot>)
    requires DistinctSlots(slots)
    ensures AntisymmetricOn(SlotLeq, slots) && Distinct(slots)
  {
    forall a, b | a in slots && b in slots && SlotLeq(a, b) && SlotLeq(b, a) ensures a == b {
      LexTotal(Utf8.Encode(a.key), Utf8.Encode(b.key));
      Utf8.Injective(a.key, b.key);
    }
  }

  /** Put in order, different keys ascend byte by byte. */
  lemma SortedAscends(slots: seq<Slot>)
    requires DistinctSlots(slots)
    ensures KeysAscend(Sort(SlotLeq, slots))
  {
    var t := Sort(SlotLeq, slots);
    SlotOrder();
    SortSorts(SlotLeq, slots);
    SortedSlots(slots);
    hide Below, Utf8.Encode;
    forall i, j | 0 <= i < j < |t| ensures Below(Utf8.Encode(t[i].key), Utf8.Encode(t[j].key)) {
      assert SlotLeq(t[i], t[j]);
      LexIsBelow(Utf8.Encode(t[i].key), Utf8.Encode(t[j].key));
      Utf8.Injective(t[i].key, t[j].key);
    }
  }

  lemma SameFields(a: seq<Slot>, b: seq<Slot>)
    requires DistinctSlots(a) && DistinctSlots(b) && forall x :: x in a <==> x in b
    ensures FieldMap(a) == FieldMap(b)
  {
    FieldMapHas(a);
    FieldMapHas(b);
    forall k ensures k in FieldMap(a) <==> k in FieldMap(b) {
      if k in FieldMap(a) {
        var i :| 0 <= i < |a| && a[i].key == k;
        assert a[i] in b;
      }
      if k in FieldMap(b) {
        var i :| 0 <= i < |b| && b[i].key == k;
        assert b[i] in a;
      }
    }
    forall k | k in FieldMap(a) ensures FieldMap(a)[k] == FieldMap(b)[k] {
      var i :| 0 <= i < |a| && a[i].key == k;
      assert a[i] in b;
    }
  }

  lemma SortedSlots(slots: seq<Slot>)
    requires DistinctSlots(slots)
    ensures var t := Sort(SlotLeq, slots);
            |t| == |slots| && DistinctSlots(t) && forall x :: x in t <==> x in slots
  {
    var t := Sort(SlotLeq, slots);
    SortKeeps(SlotLeq, slots);
    forall x ensures x in t <==> x in slots {
      assert x in multiset(t) <==> x in multiset(slots);
    }
    SlotsAntisymmetric(slots);
    DistinctCount(slots);
    DistinctCount(t);
    forall i, j | 0 <= i < j < |t| ensures t[i].key != t[j].key {
      assert t[i] in slots && t[j] in slots && t[i] != t[j];
    }
  }

  lemma EntrySlotsDistinct(entries: seq<Entry>, normal: Normal)
    requires DistinctKeys(entries) && forall i | 0 <= i < |entries| :: AcceptsKey(entries[i].key, normal)
    ensures DistinctSlots(Slots(entries))
  {
    forall i, j | 0 <= i < j < |entries| ensures Slots(entries)[i].key != Slots(entries)[j].key {
      SlotAt(entries, i);
      SlotAt(entries, j);
      assert AcceptsKey(entries[i].key, normal) && AcceptsKey(entries[j].key, normal);
    }
  }

  /** The encoding is self-delimiting and in order: strict decoding, with anything behind it, gives
      back the value's meaning and exactly what was behind. */
  lemma {:induction false} RoundTrip(v: Value, depth: nat, normal: Normal, rest: seq<Byte>)
    requires Accepts(v, depth, normal) && Wellformed(v)
    ensures Decode(Bytes(v) + rest) == Some((Meaning(v), rest))
    decreases v, 1
  {
    match v
    case Null => assert ([0] + rest)[1..] == rest;
    case Bool(b) => assert (Bytes(v) + rest)[1..] == rest;
    case Int(n) => IntDecodes(n, rest);
    case Str(t) => FramedDecodes(t, rest);
    case List(items) =>
      ItemsRoundTrip(items, depth + 1, normal, rest);
      ListDecodes(|items|, ItemBytes(items), ItemMeanings(items), rest);
    case Dict(entries) =>
      EntriesRoundTrip(entries, depth + 1, normal, rest);
      DictDecodes(|entries|, SlotBytes(Sort(SlotLeq, Slots(entries))), FieldMap(Slots(entries)), rest);
  }

  lemma ListDecodes(n: nat, body: seq<Byte>, items: seq<Data>, rest: seq<Byte>)
    requires n < 0x1_0000_0000 && DecodeItems(n, body + rest) == Some((items, rest))
    ensures Decode([5] + Pack(n, 4) + body + rest) == Some((DList(items), rest))
  {
    HeaderDecodes(5, n, body + rest);
    assert [5] + Pack(n, 4) + body + rest == [5] + Pack(n, 4) + (body + rest);
  }

  lemma DictDecodes(n: nat, body: seq<Byte>, fields: map<Text, Data>, rest: seq<Byte>)
    requires n < 0x1_0000_0000 && DecodeFields(n, body + rest, None) == Some((fields, rest))
    ensures Decode([6] + Pack(n, 4) + body + rest) == Some((DMap(fields), rest))
  {
    HeaderDecodes(6, n, body + rest);
    assert [6] + Pack(n, 4) + body + rest == [6] + Pack(n, 4) + (body + rest);
  }

  lemma {:induction false} EntriesRoundTrip(entries: seq<Entry>, depth: nat, normal: Normal, rest: seq<Byte>)
    requires DistinctKeys(entries)
    requires forall i | 0 <= i < |entries| ::
               AcceptsKey(entries[i].key, normal) && Accepts(entries[i].value, depth, normal) && Wellformed(entries[i].value)
    ensures DecodeFields(|entries|, SlotBytes(Sort(SlotLeq, Slots(entries))) + rest, None) == Some((FieldMap(Slots(entries)), rest))
    decreases entries, 1
  {
    var slots := Slots(entries);
    var t := Sort(SlotLeq, slots);
    EntrySlotsDistinct(entries, normal);
    SortedSlots(slots);
    SameFields(slots, t);
    forall i | 0 <= i < |entries| ensures SlotDecodes(slots[i]) {
      SlotAt(entries, i);
      EntryRoundTrip(entries[i], depth, normal);
    }
    forall i | 0 <= i < |t| ensures SlotDecodes(t[i]) {
      assert t[i] in slots;
    }
    SortedAscends(slots);
    FieldsDecode(t, rest, None);
  }

  lemma {:induction false} EntryRoundTrip(e: Entry, depth: nat, normal: Normal)
    requires AcceptsKey(e.key, normal) && Accepts(e.value, depth, normal) && Wellformed(e.value)
    ensures SlotDecodes(SlotOf(e))
    decreases e, 1
  {
    forall rest ensures Decode(SlotOf(e).bytes + rest) == Some((SlotOf(e).data, rest)) {
      RoundTrip(e.value, depth, normal, rest);
    }
  }

  lemma {:induction false} ItemsRoundTrip(items: seq<Value>, depth: nat, normal: Normal, rest: seq<Byte>)
    requires forall i | 0 <= i < |items| :: Accepts(items[i], depth, normal) && Wellformed(items[i])
    ensures DecodeItems(|items|, ItemBytes(items) + rest) == Some((ItemMeanings(items), rest))
    decreases items, 0
  {
    if items == [] {
      assert ItemBytes(items) + rest == rest;
    } else {
      var tail := ItemBytes(items[1..]) + rest;
      RoundTrip(items[0], depth, normal, tail);
      ItemsRoundTrip(items[1..], depth, normal, rest);
      ConsBytes(items, rest);
      DecodeCons(|items|, ItemBytes(items) + rest, Meaning(items[0]), tail);
    }
  }

  lemma ConsBytes(items: seq<Value>, rest: seq<Byte>)
    requires items != []
    ensures ItemBytes(items) + rest == Bytes(items[0]) + (ItemBytes(items[1..]) + rest)
  {
  }

  lemma DecodeCons(n: nat, s: seq<Byte>, d: Data, tail: seq<Byte>)
    requires n > 0 && Decode(s) == Some((d, tail)) && DecodeItems(n - 1, tail).Some?
    ensures DecodeItems(n, s) == Some(([d] + DecodeItems(n - 1, tail).value.0, DecodeItems(n - 1, tail).value.1))
  {
  }

  // ----- The order of keys

  /** The bytes of a dict are its fields, each once, their keys strictly ascending. */
  lemma DictKeysAscend(entries: seq<Entry>, depth: nat, normal: Normal) returns (fields: seq<Slot>)
    requires Accepts(Dict(entries), depth, normal) && Wellformed(Dict(entries))
    ensures multiset(fields) == multiset(Slots(entries))
    ensures forall i, j | 0 <= i < j < |fields| :: Below(Utf8.Encode(fields[i].key), Utf8.Encode(fields[j].key))
    ensures Bytes(Dict(entries)) == [6] + Pack(|fields|, 4) + SlotBytes(fields)
  {
    fields := Sort(SlotLeq, Slots(entries));
    EntrySlotsDistinct(entries, normal);
    SortedAscends(Slots(entries));
    SortKeeps(SlotLeq, Slots(entries));
  }

  // ----- Equal bytes, equal meaning

  /** Two accepted values have the same bytes exactly when they mean the same: neither the
      order in which a dict was filled, nor anything else, can make two values collide. */
  lemma BytesDetermineMeaning(v: Value, w: Value, normal: Normal)
    requires Accepts(v, 0, normal) && Wellformed(v) && Accepts(w, 0, normal) && Wellformed(w)
    ensures Bytes(v) == Bytes(w) <==> Meaning(v) == Meaning(w)
  {
    RoundTrip(v, 0, normal, []);
    RoundTrip(w, 0, normal, []);
    assert Bytes(v) + [] == Bytes(v) && Bytes(w) + [] == Bytes(w);
    if Meaning(v) == Meaning(w) {
      SameMeaningSameBytes(v, 0, w, 0, normal);
    }
  }

  lemma {:induction false} SameMeaningSameBytes(v: Value, d: nat, w: Value, e: nat, normal: Normal)
    requires Accepts(v, d, normal) && Wellformed(v) && Accepts(w, e, normal) && Wellformed(w)
    requires Meaning(v) == Meaning(w)
    ensures Bytes(v) == Bytes(w)
    decreases v, 1
  {
    match v
    case List(items) => SameItemsSameBytes(items, d + 1, w.items, e + 1, normal);
    case Dict(entries) => SameFieldsSameBytes(entries, d + 1, w.entries, e + 1, normal);
    case _ =>
  }

  lemma {:induction false} SameItemsSameBytes(v: seq<Value>, d: nat, w: seq<Value>, e: nat, normal: Normal)
    requires forall i | 0 <= i < |v| :: Accepts(v[i], d, normal) && Wellformed(v[i])
    requires forall i | 0 <= i < |w| :: Accepts(w[i], e, normal) && Wellformed(w[i])
    requires ItemMeanings(v) == ItemMeanings(w)
    ensures ItemBytes(v) == ItemBytes(w) && |v| == |w|
    decreases v, 0
  {
    assert |v| == |ItemMeanings(v)| == |w|;
    if v != [] {
      assert ItemMeanings(v)[0] == ItemMeanings(w)[0];
      SameMeaningSameBytes(v[0], d, w[0], e, normal);
      assert ItemMeanings(v)[1..] == ItemMeanings(v[1..]) && ItemMeanings(w)[1..] == ItemMeanings(w[1..]);
      SameItemsSameBytes(v[1..], d, w[1..], e, normal);
    }
  }

  ghost predicate GoodEntries(entries: seq<Entry>, depth: nat, normal: Normal) {
    && DistinctKeys(entries)
    && forall i | 0 <= i < |entries| ::
         AcceptsKey(entries[i].key, normal) && Accepts(entries[i].value, depth, normal) && Wellformed(entries[i].value)
  }

  lemma SlotsCovered(a: seq<Slot>, b: seq<Slot>)
    requires DistinctSlots(a) && DistinctSlots(b) && FieldMap(a) == FieldMap(b) && forall x | x in a :: x in b
    ensures forall x | x in b :: x in a
  {
    FieldMapHas(a);
    FieldMapHas(b);
    forall x | x in b ensures x in a {
      var j :| 0 <= j < |b| && b[j] == x;
      var i :| 0 <= i < |a| && a[i].key == x.key;
      assert a[i] in b;
      var k :| 0 <= k < |b| && b[k] == a[i];
      assert k == j;
    }
  }

  lemma {:induction false} SameFieldsSameBytes(v: seq<Entry>, d: nat, w: seq<Entry>, e: nat, normal: Normal)
    requires GoodEntries(v, d, normal) && GoodEntries(w, e, normal) && FieldMap(Slots(v)) == FieldMap(Slots(w))
    ensures Sort(SlotLeq, Slots(v)) == Sort(SlotLeq, Slots(w)) && |v| == |w|
    decreases v, 0
  {
    var a, b := Slots(v), Slots(w);
    EntrySlotsDistinct(v, normal);
    EntrySlotsDistinct(w, normal);
    forall x | x in a ensures x in b {
      var i :| 0 <= i < |a| && a[i] == x;
      SlotAt(v, i);
      SlotIsShared(v[i], d, w, e, normal, a);
    }
    SlotsCovered(a, b);
    SlotsAntisymmetric(a);
    SlotsAntisymmetric(b);
    DistinctSameMembers(a, b);
    SlotOrder();
    SortForgetsOrder(SlotLeq, a, b);
    assert |multiset(a)| == |a| && |multiset(b)| == |b|;
  }

  lemma {:induction false} SlotIsShared(x: Entry, d: nat, w: seq<Entry>, e: nat, normal: Normal, a: seq<Slot>)
    requires GoodEntries(w, e, normal) && AcceptsKey(x.key, normal) && Accepts(x.value, d, normal) && Wellformed(x.value)
    requires DistinctSlots(a) && SlotOf(x) in a && FieldMap(a) == FieldMap(Slots(w))
    ensures SlotOf(x) in Slots(w)
    decreases x, 2
  {
    var b := Slots(w);
    EntrySlotsDistinct(w, normal);
    FieldMapHas(a);
    FieldMapHas(b);
    var j :| 0 <= j < |b| && b[j].key == SlotOf(x).key;
    SlotAt(w, j);
    SameMeaningSameBytes(x.value, d, w[j].value, e, normal);
  }

  // ----- The envelope

  function Envelope(domain: Text, v: Value): seq<Byte>
    requires ValidDomain(domain)
  {
    Prefix() + [0] + Pack(ENCODING_VERSION, 2) + [|domain|] + Utf8.AsciiBytes(domain) + Bytes(v)
  }

  /** "NIR-CONSENSUS" */
  function Prefix(): (p: seq<Byte>)
    ensures |p| == 13
  {
    [78, 73, 82, 45, 67, 79, 78, 83, 69, 78, 83, 85, 83]
  }

  predicate ValidDomain(d: Text) {
    1 <= |d| <= 40 && forall i | 0 <= i < |d| :: 65 <= d[i] <= 90 || 48 <= d[i] <= 57 || d[i] == 95 || d[i] == 45
  }

  /** No envelope under one domain is ever the envelope of another domain or meaning. */
  lemma EnvelopesNeverCoincide(c: Text, v: Value, d: Text, w: Value, normal: Normal)
    requires ValidDomain(c) && ValidDomain(d)
    requires Accepts(v, 0, normal) && Wellformed(v) && Accepts(w, 0, normal) && Wellformed(w)
    ensures Envelope(c, v) == Envelope(d, w) <==> c == d && Meaning(v) == Meaning(w)
  {
    BytesDetermineMeaning(v, w, normal);
    var x, y := Envelope(c, v), Envelope(d, w);
    if x == y {
      assert x[16] == |c| && y[16] == |d|;
      assert x[17..17 + |c|] == Utf8.AsciiBytes(c) && y[17..17 + |d|] == Utf8.AsciiBytes(d);
      assert x[17 + |c|..] == Bytes(v) && y[17 + |d|..] == Bytes(w);
      assert c == d by {
        forall i | 0 <= i < |c| ensures c[i] == d[i] {
          assert Utf8.AsciiBytes(c)[i] == Utf8.AsciiBytes(d)[i];
        }
      }
    }
  }
}
