/** nir/consensus_codec.py: the recursive encoder over a heap of lists and dicts that may be
    shared or cyclic, with its output buffer and its set of active containers. */
module HeapEncoder {
  import opened Ordering
  import opened Results
  import opened BigEndian
  import opened ConsensusCodec
  import Utf8

  datatype Ref = NullRef | BoolRef(b: bool) | IntRef(n: int) | StrRef(text: Text) | ObjRef(id: nat) | OtherRef

  datatype Field = Field(key: Key, ref: Ref)

  datatype Obj = ListObj(items: seq<Ref>) | DictObj(fields: seq<Field>)

  type Heap = map<nat, Obj>

  // ----- The tree a reference unfolds to

  /** The value `r` stands for, if following references at most `fuel` deep reaches its end. */
  ghost function Unfold(h: Heap, r: Ref, fuel: nat): Option<Value>
    decreases fuel, 0
  {
    if fuel == 0 then None
    else
      match r
      case NullRef => Some(Null)
      case BoolRef(b) => Some(Bool(b))
      case IntRef(n) => Some(Int(n))
      case StrRef(t) => Some(Str(t))
      case OtherRef => Some(Unsupported)
      case ObjRef(id) =>
        if id !in h then None
        else
          match h[id]
          case ListObj(items) =>
            (match UnfoldItems(h, items, fuel - 1)
             case None => None
             case Some(vs) => Some(List(vs)))
          case DictObj(fields) =>
            (match UnfoldFields(h, fields, fuel - 1)
             case None => None
             case Some(es) => Some(Dict(es)))
  }

  ghost function UnfoldItems(h: Heap, items: seq<Ref>, fuel: nat): (r: Option<seq<Value>>)
    ensures r.Some? ==> |r.value| == |items|
    decreases fuel, |items| + 1
  {
    if items == [] then Some([])
    else
      match (Unfold(h, items[0], fuel), UnfoldItems(h, items[1..], fuel))
      case (Some(v), Some(vs)) => Some([v] + vs)
      case _ => None
  }

  ghost function UnfoldFields(h: Heap, fields: seq<Field>, fuel: nat): (r: Option<seq<Entry>>)
    ensures r.Some? ==> |r.value| == |fields|
    decreases fuel, |fields| + 1
  {
    if fields == [] then Some([])
    else
      match (Unfold(h, fields[0].ref, fuel), UnfoldFields(h, fields[1..], fuel))
      case (Some(v), Some(es)) => Some([Entry(fields[0].key, v)] + es)
      case _ => None
  }

  // ----- Cycles

  /** `r` is held directly by container `id`. */
  ghost predicate Holds(h: Heap, id: nat, r: Ref) {
    && id in h
    && match h[id]
       case ListObj(items) => r in items
       case DictObj(fields) => exists i :: 0 <= i < |fields| && fields[i].ref == r
  }

  /** `path` leads from its first container, each held by the one before, to `r`. */
  ghost predicate Path(h: Heap, path: seq<nat>, r: Ref) {
    && path != []
    && (forall i | 0 < i < |path| :: Holds(h, path[i - 1], ObjRef(path[i])))
    && Holds(h, path[|path| - 1], r)
  }

  ghost predicate Reaches(h: Heap, id: nat, r: Ref) {
    exists path: seq<nat> :: Path(h, path, r) && path[0] == id
  }

  lemma ReachesChild(h: Heap, a: nat, id: nat, r: Ref)
    requires Holds(h, id, r) && (a == id || Reaches(h, a, ObjRef(id)))
    ensures Reaches(h, a, r)
  {
    if a == id {
      assert Path(h, [id], r);
    }
    if Reaches(h, a, ObjRef(id)) {
      var path :| Path(h, path, ObjRef(id)) && path[0] == a;
      assert Path(h, path + [id], r);
    }
  }

  lemma {:induction false} ItemUnfolds(h: Heap, items: seq<Ref>, fuel: nat, i: nat)
    requires i < |items| && UnfoldItems(h, items, fuel).Some?
    ensures Unfold(h, items[i], fuel) == Some(UnfoldItems(h, items, fuel).value[i])
  {
    if i > 0 {
      ItemUnfolds(h, items[1..], fuel, i - 1);
    }
  }

  lemma {:induction false} FieldUnfolds(h: Heap, fields: seq<Field>, fuel: nat, i: nat)
    requires i < |fields| && UnfoldFields(h, fields, fuel).Some?
    ensures UnfoldFields(h, fields, fuel).value[i].key == fields[i].key
    ensures Unfold(h, fields[i].ref, fuel) == Some(UnfoldFields(h, fields, fuel).value[i].value)
  {
    if i > 0 {
      FieldUnfolds(h, fields[1..], fuel, i - 1);
    }
  }

  lemma HeldUnfolds(h: Heap, id: nat, r: Ref, fuel: nat)
    requires Holds(h, id, r) && Unfold(h, ObjRef(id), fuel).Some?
    ensures fuel > 0 && Unfold(h, r, fuel - 1).Some?
  {
    match h[id]
    case ListObj(items) =>
      var i :| 0 <= i < |items| && items[i] == r;
      ItemUnfolds(h, items, fuel - 1, i);
    case DictObj(fields) =>
      var i :| 0 <= i < |fields| && fields[i].ref == r;
      FieldUnfolds(h, fields, fuel - 1, i);
  }

  lemma {:induction false} ReachedUnfolds(h: Heap, path: seq<nat>, r: Ref, fuel: nat)
    requires Path(h, path, r) && Unfold(h, ObjRef(path[0]), fuel).Some?
    ensures fuel >= |path| && Unfold(h, r, fuel - |path|).Some?
    decreases |path|
  {
    if |path| == 1 {
      HeldUnfolds(h, path[0], r, fuel);
    } else {
      HeldUnfolds(h, path[0], ObjRef(path[1]), fuel);
      forall i | 0 < i < |path[1..]| ensures Holds(h, path[1..][i - 1], ObjRef(path[1..][i])) {
        assert Holds(h, path[(i + 1) - 1], ObjRef(path[i + 1]));
      }
      ReachedUnfolds(h, path[1..], r, fuel - 1);
    }
  }

  /** A container that holds itself, however deep, unfolds to no finite value. */
  lemma {:induction false} CycleNeverUnfolds(h: Heap, id: nat, fuel: nat)
    requires Reaches(h, id, ObjRef(id))
    ensures Unfold(h, ObjRef(id), fuel).None?
    decreases fuel
  {
    if Unfold(h, ObjRef(id), fuel).Some? {
      var path :| Path(h, path, ObjRef(id)) && path[0] == id;
      ReachedUnfolds(h, path, ObjRef(id), fuel);
      CycleNeverUnfolds(h, id, fuel - |path|);
    }
  }

  // ----- What the encoder must produce

  /** The bytes of the unfolded tree, if there is one and it is acceptable at this depth. */
  ghost function Expected(h: Heap, normal: Normal, r: Ref, depth: nat): Option<seq<Byte>> {
    if depth > MAX_DEPTH then None
    else
      var v := Unfold(h, r, MAX_DEPTH + 1 - depth);
      if v.Some? && Accepts(v.value, depth, normal) then Some(Bytes(v.value)) else None
  }

  /** How much fuel a tree is unfolded with is immaterial: an acceptable one is never deeper than
      the limit, so it is found with the fuel Expected spends. */
  lemma {:induction false} FuelIsEnough(h: Heap, r: Ref, fuel: nat, normal: Normal, depth: nat)
    requires Unfold(h, r, fuel).Some? && Accepts(Unfold(h, r, fuel).value, depth, normal)
    ensures depth <= MAX_DEPTH && Unfold(h, r, MAX_DEPTH + 1 - depth) == Unfold(h, r, fuel)
    decreases fuel, 0
  {
    if r.ObjRef? && h[r.id].ListObj? {
      ItemFuelIsEnough(h, h[r.id].items, fuel - 1, normal, depth + 1);
    } else if r.ObjRef? {
      FieldFuelIsEnough(h, h[r.id].fields, fuel - 1, normal, depth + 1);
    }
  }

  lemma {:induction false} ItemFuelIsEnough(h: Heap, items: seq<Ref>, fuel: nat, normal: Normal, depth: nat)
    requires depth <= MAX_DEPTH + 1 && UnfoldItems(h, items, fuel).Some?
    requires forall i | 0 <= i < |items| :: Accepts(UnfoldItems(h, items, fuel).value[i], depth, normal)
    ensures UnfoldItems(h, items, MAX_DEPTH + 1 - depth) == UnfoldItems(h, items, fuel)
    decreases fuel, |items| + 1
  {
    if items != [] {
      var vs, rest := UnfoldItems(h, items, fuel).value, UnfoldItems(h, items[1..], fuel).value;
      assert vs == [vs[0]] + rest;
      FuelIsEnough(h, items[0], fuel, normal, depth);
      forall i | 0 <= i < |rest| ensures Accepts(rest[i], depth, normal) {
        assert vs[i + 1] == rest[i];
      }
      ItemFuelIsEnough(h, items[1..], fuel, normal, depth);
    }
  }

  lemma {:induction false} FieldFuelIsEnough(h: Heap, fields: seq<Field>, fuel: nat, normal: Normal, depth: nat)
    requires depth <= MAX_DEPTH + 1 && UnfoldFields(h, fields, fuel).Some?
    requires forall i | 0 <= i < |fields| :: Accepts(UnfoldFields(h, fields, fuel).value[i].value, depth, normal)
    ensures UnfoldFields(h, fields, MAX_DEPTH + 1 - depth) == UnfoldFields(h, fields, fuel)
    decreases fuel, |fields| + 1
  {
    if fields != [] {
      var es, rest := UnfoldFields(h, fields, fuel).value, UnfoldFields(h, fields[1..], fuel).value;
      assert es == [es[0]] + rest;
      FuelIsEnough(h, fields[0].ref, fuel, normal, depth);
      forall i | 0 <= i < |rest| ensures Accepts(rest[i].value, depth, normal) {
        assert es[i + 1] == rest[i];
      }
      FieldFuelIsEnough(h, fields[1..], fuel, normal, depth);
    }
  }

  /** The tree a reference stands for, if it stands for one at all. */
  ghost predicate IsTree(h: Heap, r: Ref, v: Value) {
    exists fuel: nat :: Unfold(h, r, fuel) == Some(v)
  }

  /** What is expected are the bytes of the acceptable tree, whenever there is one. */
  lemma ExpectedIsTree(h: Heap, normal: Normal, r: Ref, bytes: seq<Byte>)
    ensures Expected(h, normal, r, 0) == Some(bytes) <==> exists v :: IsTree(h, r, v) && Accepts(v, 0, normal) && Bytes(v) == bytes
  {
    hide Accepts, Bytes, Unfold;
    if Expected(h, normal, r, 0) == Some(bytes) {
      assert IsTree(h, r, Unfold(h, r, MAX_DEPTH + 1).value);
    }
    if v :| IsTree(h, r, v) && Accepts(v, 0, normal) && Bytes(v) == bytes {
      var fuel: nat :| Unfold(h, r, fuel) == Some(v);
      FuelIsEnough(h, r, fuel, normal, 0);
    }
  }

  ghost function ExpectedItems(h: Heap, normal: Normal, items: seq<Ref>, depth: nat): Option<seq<Byte>> {
    if items == [] then Some([])
    else
      match (Expected(h, normal, items[0], depth), ExpectedItems(h, normal, items[1..], depth))
      case (Some(b), Some(bs)) => Some(b + bs)
      case _ => None
  }

  predicate FieldLeq(a: Field, b: Field) {
    LexLeq(Utf8.Encode(KeyText(a.key)), Utf8.Encode(KeyText(b.key)))
  }

  ghost function ExpectedFields(h: Heap, normal: Normal, fields: seq<Field>, depth: nat): Option<seq<Byte>> {
    if fields == [] then Some([])
    else
      match (Expected(h, normal, fields[0].ref, depth), ExpectedFields(h, normal, fields[1..], depth))
      case (Some(b), Some(bs)) => Some(Framed(Utf8.Encode(KeyText(fields[0].key))) + b + bs)
      case _ => None
  }

  lemma {:induction false} ItemsAsExpected(h: Heap, normal: Normal, items: seq<Ref>, depth: nat)
    requires depth <= MAX_DEPTH + 1
    ensures var vs := UnfoldItems(h, items, MAX_DEPTH + 1 - depth);
            var e := ExpectedItems(h, normal, items, depth);
            && (e.Some? <==> vs.Some? && forall i | 0 <= i < |vs.value| :: Accepts(vs.value[i], depth, normal))
            && (e.Some? ==> e.value == ItemBytes(vs.value))
  {
    if items != [] {
      ItemsAsExpected(h, normal, items[1..], depth);
      var vs := UnfoldItems(h, items, MAX_DEPTH + 1 - depth);
      if vs.Some? {
        var tail := UnfoldItems(h, items[1..], MAX_DEPTH + 1 - depth).value;
        assert vs.value[0] == Unfold(h, items[0], MAX_DEPTH + 1 - depth).value && vs.value[1..] == tail;
        assert forall i | 0 < i < |vs.value| :: vs.value[i] == tail[i - 1];
        assert forall i | 0 <= i < |tail| :: tail[i] == vs.value[i + 1];
      }
    }
  }

  ghost predicate AllExpected(h: Heap, normal: Normal, fields: seq<Field>, depth: nat) {
    forall f | f in fields :: Expected(h, normal, f.ref, depth).Some?
  }

  lemma {:induction false} FieldsExist(h: Heap, normal: Normal, fields: seq<Field>, depth: nat)
    ensures ExpectedFields(h, normal, fields, depth).Some? <==> AllExpected(h, normal, fields, depth)
  {
    if fields != [] {
      FieldsExist(h, normal, fields[1..], depth);
      assert forall f :: f in fields <==> f == fields[0] || f in fields[1..];
    }
  }

  ghost predicate AllAccepted(es: Option<seq<Entry>>, depth: nat, normal: Normal) {
    es.Some? && forall i | 0 <= i < |es.value| :: Accepts(es.value[i].value, depth, normal)
  }

  lemma {:induction false} FieldsUnfold(h: Heap, normal: Normal, fields: seq<Field>, depth: nat)
    requires depth <= MAX_DEPTH + 1
    ensures AllExpected(h, normal, fields, depth)
            <==> AllAccepted(UnfoldFields(h, fields, MAX_DEPTH + 1 - depth), depth, normal)
  {
    var fuel := MAX_DEPTH + 1 - depth;
    if fields != [] {
      FieldsUnfold(h, normal, fields[1..], depth);
      assert forall f :: f in fields <==> f == fields[0] || f in fields[1..];
      assert AllExpected(h, normal, fields, depth)
        <==> Expected(h, normal, fields[0].ref, depth).Some? && AllExpected(h, normal, fields[1..], depth);
      var es, tail := UnfoldFields(h, fields, fuel), UnfoldFields(h, fields[1..], fuel);
      if es.Some? {
        assert forall i | 0 < i < |es.value| :: es.value[i] == tail.value[i - 1];
        assert forall i | 0 <= i < |tail.value| :: tail.value[i] == es.value[i + 1];
        assert es.value[0].value == Unfold(h, fields[0].ref, fuel).value;
      }
    }
  }

  /** A heap field as the slot its unfolding becomes. */
  ghost function FieldSlot(h: Heap, fuel: nat, f: Field): Slot {
    var v := Unfold(h, f.ref, fuel);
    if v.Some? then SlotOf(Entry(f.key, v.value)) else Slot(KeyText(f.key), [], DNull)
  }

  lemma {:induction false} SlotsOfFields(h: Heap, fields: seq<Field>, fuel: nat)
    requires UnfoldFields(h, fields, fuel).Some?
    ensures Slots(UnfoldFields(h, fields, fuel).value) == Map((f: Field) => FieldSlot(h, fuel, f), fields)
  {
    if fields != [] {
      SlotsOfFields(h, fields[1..], fuel);
      assert UnfoldFields(h, fields, fuel).value[1..] == UnfoldFields(h, fields[1..], fuel).value;
    }
  }

  lemma {:induction false} FieldBytes(h: Heap, normal: Normal, fields: seq<Field>, depth: nat)
    requires depth <= MAX_DEPTH + 1 && ExpectedFields(h, normal, fields, depth).Some?
    ensures ExpectedFields(h, normal, fields, depth).value
         == SlotBytes(Map((f: Field) => FieldSlot(h, MAX_DEPTH + 1 - depth, f), fields))
  {
    var slot := (f: Field) => FieldSlot(h, MAX_DEPTH + 1 - depth, f);
    if fields != [] {
      FieldBytes(h, normal, fields[1..], depth);
      assert Map(slot, fields)[1..] == Map(slot, fields[1..]);
    }
  }

  lemma SortKeepsMembers(fields: seq<Field>)
    ensures forall f :: f in Sort(FieldLeq, fields) <==> f in fields
    ensures |Sort(FieldLeq, fields)| == |fields|
  {
    SortKeeps(FieldLeq, fields);
    forall f ensures f in Sort(FieldLeq, fields) <==> f in fields {
      assert f in multiset(Sort(FieldLeq, fields)) <==> f in multiset(fields);
    }
  }

  lemma SortedFieldsExist(h: Heap, normal: Normal, fields: seq<Field>, depth: nat)
    requires depth <= MAX_DEPTH + 1
    ensures ExpectedFields(h, normal, Sort(FieldLeq, fields), depth).Some?
            <==> AllAccepted(UnfoldFields(h, fields, MAX_DEPTH + 1 - depth), depth, normal)
  {
    SortKeepsMembers(fields);
    FieldsExist(h, normal, Sort(FieldLeq, fields), depth);
    FieldsUnfold(h, normal, fields, depth);
  }

  /** Visiting a dict's fields in key order produces the bytes of the unfolded dict. */
  lemma SortedFieldsAsExpected(h: Heap, normal: Normal, fields: seq<Field>, depth: nat)
    requires depth <= MAX_DEPTH + 1 && ExpectedFields(h, normal, Sort(FieldLeq, fields), depth).Some?
    ensures var es := UnfoldFields(h, fields, MAX_DEPTH + 1 - depth);
            es.Some? && ExpectedFields(h, normal, Sort(FieldLeq, fields), depth).value == SlotBytes(Sort(SlotLeq, Slots(es.value)))
  {
    hide Accepts, LexLeq, Utf8.Encode, Pack;
    SortedFieldsExist(h, normal, fields, depth);
    var slot := (f: Field) => FieldSlot(h, MAX_DEPTH + 1 - depth, f);
    FieldBytes(h, normal, Sort(FieldLeq, fields), depth);
    SlotsOfFields(h, fields, MAX_DEPTH + 1 - depth);
    SortCommutes(slot, FieldLeq, SlotLeq, fields);
  }

  // ----- One container

  lemma ListAsExpected(h: Heap, normal: Normal, id: nat, depth: nat)
    requires id in h && h[id].ListObj? && depth <= MAX_DEPTH
    ensures var items := h[id].items;
            var body := ExpectedItems(h, normal, items, depth + 1);
            Expected(h, normal, ObjRef(id), depth)
            == if |items| <= MAX_CONTAINER_ENTRIES && body.Some? then Some([5] + Pack(|items|, 4) + body.value) else None
  {
    ItemsAsExpected(h, normal, h[id].items, depth + 1);
  }

  ghost predicate KeysAccepted(fields: seq<Field>, normal: Normal) {
    forall i | 0 <= i < |fields| :: AcceptsKey(fields[i].key, normal)
  }

  lemma {:induction false} KeysUnfold(h: Heap, normal: Normal, fields: seq<Field>, fuel: nat)
    requires UnfoldFields(h, fields, fuel).Some?
    ensures var es := UnfoldFields(h, fields, fuel).value;
            KeysAccepted(fields, normal) <==> forall i | 0 <= i < |es| :: AcceptsKey(es[i].key, normal)
  {
    forall i | 0 <= i < |fields| {
      FieldUnfolds(h, fields, fuel, i);
    }
  }

  /** The dict as a tree, before its fields are put in order. */
  ghost function DictTree(h: Heap, normal: Normal, fields: seq<Field>, depth: nat): Option<seq<Byte>>
    requires depth <= MAX_DEPTH
  {
    var es := UnfoldFields(h, fields, MAX_DEPTH - depth);
    if |fields| <= MAX_CONTAINER_ENTRIES && KeysAccepted(fields, normal) && AllAccepted(es, depth + 1, normal)
    then Some([6] + Pack(|fields|, 4) + SlotBytes(Sort(SlotLeq, Slots(es.value)))) else None
  }

  ghost function Counted(n: nat, body: Option<seq<Byte>>): Option<seq<Byte>> {
    if body.Some? then Some([6] + Pack(n, 4) + body.value) else None
  }

  /** The same bytes, as the encoder goes about them. */
  ghost function DictBytes(h: Heap, normal: Normal, fields: seq<Field>, depth: nat): Option<seq<Byte>> {
    if |fields| <= MAX_CONTAINER_ENTRIES && KeysAccepted(fields, normal)
    then Counted(|Sort(FieldLeq, fields)|, ExpectedFields(h, normal, Sort(FieldLeq, fields), depth + 1)) else None
  }

  lemma DictUnfolds(h: Heap, normal: Normal, id: nat, depth: nat)
    requires id in h && h[id].DictObj? && depth <= MAX_DEPTH
    ensures Expected(h, normal, ObjRef(id), depth) == DictTree(h, normal, h[id].fields, depth)
  {
    var fields := h[id].fields;
    if UnfoldFields(h, fields, MAX_DEPTH - depth).Some? {
      KeysUnfold(h, normal, fields, MAX_DEPTH - depth);
      assert Unfold(h, ObjRef(id), MAX_DEPTH + 1 - depth) == Some(Dict(UnfoldFields(h, fields, MAX_DEPTH - depth).value));
    }
  }

  lemma DictReorders(h: Heap, normal: Normal, fields: seq<Field>, depth: nat)
    requires depth <= MAX_DEPTH
    ensures DictTree(h, normal, fields, depth) == DictBytes(h, normal, fields, depth)
  {
    hide UnfoldFields, ExpectedFields, SlotBytes, Sort, Slots, AcceptsKey, Accepts, Pack;
    SortKeepsMembers(fields);
    SortedFieldsExist(h, normal, fields, depth + 1);
    if ExpectedFields(h, normal, Sort(FieldLeq, fields), depth + 1).Some? {
      SortedFieldsAsExpected(h, normal, fields, depth + 1);
    }
  }

  /** No field of the dict has the key of another. */
  ghost predicate DistinctFields(fields: seq<Field>) {
    forall i, j | 0 <= i < j < |fields| :: fields[i].key != fields[j].key
  }

  /** An encoded dict is its fields, each once, the bytes of their keys strictly ascending. */
  lemma HeapKeysAscend(h: Heap, normal: Normal, id: nat, depth: nat) returns (sorted: seq<Field>)
    requires id in h && h[id].DictObj? && DistinctFields(h[id].fields) && Expected(h, normal, ObjRef(id), depth).Some?
    ensures multiset(sorted) == multiset(h[id].fields)
    ensures forall i, j | 0 <= i < j < |sorted| ::
              Below(Utf8.Encode(KeyText(sorted[i].key)), Utf8.Encode(KeyText(sorted[j].key)))
    ensures ExpectedFields(h, normal, sorted, depth + 1).Some?
    ensures Expected(h, normal, ObjRef(id), depth)
         == Some([6] + Pack(|sorted|, 4) + ExpectedFields(h, normal, sorted, depth + 1).value)
  {
    var fields := h[id].fields;
    sorted := Sort(FieldLeq, fields);
    DictUnfolds(h, normal, id, depth);
    DictReorders(h, normal, fields, depth);
    hide Expected, ExpectedFields, DictTree, UnfoldFields, Accepts, Below, Utf8.Encode;
    SortKeeps(FieldLeq, fields);
    SortedFieldsAscend(fields, normal);
  }

  lemma FieldOrder()
    ensures TotalPreorder(FieldLeq)
  {
    LexOrder();
    forall a: Field, b: Field ensures FieldLeq(a, b) || FieldLeq(b, a) {
      LexTotal(Utf8.Encode(KeyText(a.key)), Utf8.Encode(KeyText(b.key)));
    }
    forall a: Field, b: Field, c: Field | FieldLeq(a, b) && FieldLeq(b, c) ensures FieldLeq(a, c) {
      LexTransitive(Utf8.Encode(KeyText(a.key)), Utf8.Encode(KeyText(b.key)), Utf8.Encode(KeyText(c.key)));
    }
  }

  lemma SortedFieldsAscend(fields: seq<Field>, normal: Normal)
    requires DistinctFields(fields) && KeysAccepted(fields, normal)
    ensures var sorted := Sort(FieldLeq, fields);
            forall i, j | 0 <= i < j < |sorted| ::
              Below(Utf8.Encode(KeyText(sorted[i].key)), Utf8.Encode(KeyText(sorted[j].key)))
  {
    var sorted := Sort(FieldLeq, fields);
    FieldOrder();
    SortSorts(FieldLeq, fields);
    hide Below, Utf8.Encode, LexLeq;
    forall i, j | 0 <= i < j < |sorted| ensures Below(Utf8.Encode(KeyText(sorted[i].key)), Utf8.Encode(KeyText(sorted[j].key))) {
      assert FieldLeq(sorted[i], sorted[j]);
      SortedFieldsDiffer(fields, sorted, normal, i, j);
      LexIsBelow(Utf8.Encode(KeyText(sorted[i].key)), Utf8.Encode(KeyText(sorted[j].key)));
      Utf8.Injective(KeyText(sorted[i].key), KeyText(sorted[j].key));
    }
  }

  lemma SortedFieldsDiffer(fields: seq<Field>, sorted: seq<Field>, normal: Normal, i: nat, j: nat)
    requires DistinctFields(fields) && KeysAccepted(fields, normal) && sorted == Sort(FieldLeq, fields) && i < j < |sorted|
    ensures KeyText(sorted[i].key) != KeyText(sorted[j].key)
  {
    SortKeeps(FieldLeq, fields);
    SortKeepsMembers(fields);
    DistinctCount(fields);
    DistinctCount(sorted);
    assert sorted[i] in fields && sorted[j] in fields && sorted[i] != sorted[j];
    assert AcceptsKey(sorted[i].key, normal) && AcceptsKey(sorted[j].key, normal);
  }

  // ----- Sizes

  function KeyBytes(fields: seq<Field>): nat {
    if fields == [] then 0 else |Utf8.Encode(KeyText(fields[0].key))| + KeyBytes(fields[1..])
  }

  lemma {:induction false} KeyBytesInsert(x: Field, fields: seq<Field>)
    ensures KeyBytes(Insert(FieldLeq, x, fields)) == |Utf8.Encode(KeyText(x.key))| + KeyBytes(fields)
  {
    if fields != [] && !FieldLeq(x, fields[0]) {
      KeyBytesInsert(x, fields[1..]);
    }
  }

  lemma {:induction false} KeyBytesSort(fields: seq<Field>)
    ensures KeyBytes(Sort(FieldLeq, fields)) == KeyBytes(fields)
  {
    if fields != [] {
      KeyBytesSort(fields[1..]);
      KeyBytesInsert(fields[0], Sort(FieldLeq, fields[1..]));
    }
  }

  lemma {:induction false} KeyBytesPrefix(fields: seq<Field>, n: nat)
    requires n <= |fields|
    ensures KeyBytes(fields[..n]) <= KeyBytes(fields)
    ensures n < |fields| ==> KeyBytes(fields[..n + 1]) == KeyBytes(fields[..n]) + |Utf8.Encode(KeyText(fields[n].key))|
  {
    if n > 0 {
      KeyBytesPrefix(fields[1..], n - 1);
      assert fields[..n][1..] == fields[1..][..n - 1];
      if n < |fields| {
        assert fields[..n + 1][1..] == fields[1..][..n];
      }
    } else if fields != [] {
      assert fields[..1][1..] == [];
      assert fields[..0] == [];
    }
  }

  lemma {:induction false} BodyHoldsKeys(h: Heap, normal: Normal, fields: seq<Field>, depth: nat)
    requires ExpectedFields(h, normal, fields, depth).Some?
    ensures |ExpectedFields(h, normal, fields, depth).value| >= KeyBytes(fields)
  {
    if fields != [] {
      BodyHoldsKeys(h, normal, fields[1..], depth);
    }
  }

  /** A step of the encoder appends exactly the expected bytes if there are any and they fit;
      failing, it may leave part of them. */
  ghost predicate Wrote(ok: bool, before: seq<Byte>, after: seq<Byte>, expected: Option<seq<Byte>>) {
    && (ok <==> expected.Some? && |before| + |expected.value| <= MAX_ENCODED_BYTES)
    && (ok ==> after == before + expected.value)
    && before <= after && |after| <= MAX_ENCODED_BYTES
  }

  /** Bytes of a prefix, then of the next item, all inside the whole. */
  lemma {:induction false} ItemsSplit(h: Heap, normal: Normal, items: seq<Ref>, depth: nat, n: nat)
    requires n <= |items|
    ensures var all, front, back := ExpectedItems(h, normal, items, depth),
                ExpectedItems(h, normal, items[..n], depth), ExpectedItems(h, normal, items[n..], depth);
            && (all.Some? <==> front.Some? && back.Some?)
            && (all.Some? ==> all.value == front.value + back.value)
  {
    if n > 0 {
      ItemsSplit(h, normal, items[1..], depth, n - 1);
      assert items[..n][1..] == items[1..][..n - 1];
      assert items[1..][n - 1..] == items[n..];
    } else {
      assert items[..0] == [] && items[0..] == items;
    }
  }

  lemma {:induction false} FieldsSplit(h: Heap, normal: Normal, fields: seq<Field>, depth: nat, n: nat)
    requires n <= |fields|
    ensures var all, front, back := ExpectedFields(h, normal, fields, depth),
                ExpectedFields(h, normal, fields[..n], depth), ExpectedFields(h, normal, fields[n..], depth);
            && (all.Some? <==> front.Some? && back.Some?)
            && (all.Some? ==> all.value == front.value + back.value)
  {
    hide Expected, Framed, Utf8.Encode, KeyText;
    if n > 0 {
      FieldsSplit(h, normal, fields[1..], depth, n - 1);
      assert fields[..n][1..] == fields[1..][..n - 1];
      assert fields[1..][n - 1..] == fields[n..];
    } else {
      assert fields[..0] == [] && fields[0..] == fields;
    }
  }

  /** What a loop over items has written after `n` of them, one more item later. */
  lemma ItemStep(h: Heap, normal: Normal, items: seq<Ref>, depth: nat, n: nat)
    requires n < |items| && ExpectedItems(h, normal, items[..n], depth).Some?
    ensures var front, one := ExpectedItems(h, normal, items[..n], depth).value, Expected(h, normal, items[n], depth);
            && (one.Some? ==> ExpectedItems(h, normal, items[..n + 1], depth) == Some(front + one.value))
            && (ExpectedItems(h, normal, items, depth).Some? ==>
                  one.Some? && |ExpectedItems(h, normal, items, depth).value| >= |front| + |one.value|)
  {
    ItemsSplit(h, normal, items, depth, n);
    ItemsSplit(h, normal, items[..n + 1], depth, n);
    assert items[..n + 1][..n] == items[..n] && items[..n + 1][n..] == [items[n]];
    var one := Expected(h, normal, items[n], depth);
    if one.Some? {
      assert ExpectedItems(h, normal, [items[n]], depth) == Some(one.value + []);
      assert one.value + [] == one.value;
    }
    assert items[n..][0] == items[n];
  }

  lemma FieldStep(h: Heap, normal: Normal, fields: seq<Field>, depth: nat, n: nat)
    requires n < |fields| && ExpectedFields(h, normal, fields[..n], depth).Some?
    ensures var front, one := ExpectedFields(h, normal, fields[..n], depth).value, Expected(h, normal, fields[n].ref, depth);
            var key := Framed(Utf8.Encode(KeyText(fields[n].key)));
            && (one.Some? ==> ExpectedFields(h, normal, fields[..n + 1], depth) == Some(front + (key + one.value)))
            && (ExpectedFields(h, normal, fields, depth).Some? ==>
                  one.Some? && |ExpectedFields(h, normal, fields, depth).value| >= |front| + |key| + |one.value|)
  {
    FieldsSplit(h, normal, fields, depth, n);
    FieldsSplit(h, normal, fields[..n + 1], depth, n);
    assert fields[..n + 1][..n] == fields[..n] && fields[..n + 1][n..] == [fields[n]];
    var one := Expected(h, normal, fields[n].ref, depth);
    var key := Framed(Utf8.Encode(KeyText(fields[n].key)));
    if one.Some? {
      assert ExpectedFields(h, normal, [fields[n]], depth) == Some(key + one.value + []);
      assert key + one.value + [] == key + one.value;
    }
    assert fields[n..][0] == fields[n];
  }

  /** A dict whose bytes fit passes the check of its keys made before anything is written. */
  lemma BodyHoldsAllKeys(h: Heap, normal: Normal, fields: seq<Field>, depth: nat)
    requires DictBytes(h, normal, fields, depth).Some?
    ensures |DictBytes(h, normal, fields, depth).value| >= KeyBytes(fields)
  {
    KeyBytesSort(fields);
    BodyHoldsKeys(h, normal, Sort(FieldLeq, fields), depth + 1);
  }

  lemma HeaderThenBody(start: seq<Byte>, header: seq<Byte>, body: Option<seq<Byte>>, all: Option<seq<Byte>>, after: seq<Byte>, ok: bool)
    requires all == if body.Some? then Some(header + body.value) else None
    requires |start| <= MAX_ENCODED_BYTES
    requires if |start + header| <= MAX_ENCODED_BYTES then Wrote(ok, start + header, after, body) else !ok && after == start
    ensures Wrote(ok, start, after, all)
  {
    if ok {
      assert start + (header + body.value) == start + header + body.value;
    }
  }

  ghost function Refs(fields: seq<Field>): (r: seq<Ref>)
    ensures |r| == |fields| && forall i | 0 <= i < |fields| :: r[i] == fields[i].ref
  {
    if fields == [] then [] else [fields[0].ref] + Refs(fields[1..])
  }

  ghost predicate AllReach(h: Heap, active: set<nat>, refs: seq<Ref>) {
    forall a, i | a in active && 0 <= i < |refs| :: Reaches(h, a, refs[i])
  }

  lemma ReachesFields(h: Heap, id: nat, active: set<nat>)
    requires id in h && h[id].DictObj? && forall a | a in active && a != id :: Reaches(h, a, ObjRef(id))
    ensures var sorted := Sort(FieldLeq, h[id].fields);
            AllReach(h, active, Refs(sorted))
  {
    var sorted := Sort(FieldLeq, h[id].fields);
    SortKeepsMembers(h[id].fields);
    forall a, i | a in active && 0 <= i < |sorted| ensures Reaches(h, a, sorted[i].ref) {
      assert sorted[i] in h[id].fields;
      ReachesChild(h, a, id, sorted[i].ref);
    }
  }

  lemma ItemProgress(h: Heap, normal: Normal, items: seq<Ref>, depth: nat, n: nat, start: seq<Byte>, after: seq<Byte>, ok: bool)
    requires n < |items| && ExpectedItems(h, normal, items[..n], depth).Some?
    requires Wrote(ok, start + ExpectedItems(h, normal, items[..n], depth).value, after, Expected(h, normal, items[n], depth))
    ensures ok ==> ExpectedItems(h, normal, items[..n + 1], depth).Some?
                   && after == start + ExpectedItems(h, normal, items[..n + 1], depth).value
    ensures !ok ==> Wrote(ok, start, after, ExpectedItems(h, normal, items, depth))
  {
    ItemStep(h, normal, items, depth, n);
  }

  lemma ChainedWrites(start: seq<Byte>, front: seq<Byte>, key: seq<Byte>, one: Option<seq<Byte>>, all: Option<seq<Byte>>,
                      after: seq<Byte>, ok: bool)
    requires all.Some? ==> one.Some? && |all.value| >= |front| + |key| + |one.value|
    requires |start + front| <= MAX_ENCODED_BYTES
    requires if |start + front + key| <= MAX_ENCODED_BYTES then Wrote(ok, start + front + key, after, one)
             else !ok && after == start + front
    ensures ok ==> one.Some? && after == start + (front + (key + one.value))
    ensures !ok ==> Wrote(ok, start, after, all)
  {
  }

  lemma FieldProgress(h: Heap, normal: Normal, fields: seq<Field>, depth: nat, n: nat, start: seq<Byte>, after: seq<Byte>, ok: bool)
    requires n < |fields| && ExpectedFields(h, normal, fields[..n], depth).Some?
    requires var front := ExpectedFields(h, normal, fields[..n], depth).value;
             var key := Framed(Utf8.Encode(KeyText(fields[n].key)));
             && |start + front| <= MAX_ENCODED_BYTES
             && if |start + front + key| <= MAX_ENCODED_BYTES
                then Wrote(ok, start + front + key, after, Expected(h, normal, fields[n].ref, depth))
                else !ok && after == start + front
    ensures ok ==> ExpectedFields(h, normal, fields[..n + 1], depth).Some?
                   && after == start + ExpectedFields(h, normal, fields[..n + 1], depth).value
    ensures !ok ==> Wrote(ok, start, after, ExpectedFields(h, normal, fields, depth))
  {
    FieldStep(h, normal, fields, depth, n);
    ChainedWrites(start, ExpectedFields(h, normal, fields[..n], depth).value, Framed(Utf8.Encode(KeyText(fields[n].key))),
                  Expected(h, normal, fields[n].ref, depth), ExpectedFields(h, normal, fields, depth), after, ok);
  }

  // ----- The encoder

  class Encoder {
    var output: seq<Byte>
    var active: set<nat>

    constructor ()
      ensures output == [] && active == {}
    {
      output := [];
      active := {};
    }

    method Append(part: seq<Byte>) returns (ok: bool)
      modifies this`output
      ensures ok <==> |old(output)| + |part| <= MAX_ENCODED_BYTES
      ensures output == if ok then old(output) + part else old(output)
    {
      ok := |output| + |part| <= MAX_ENCODED_BYTES;
      if ok {
        output := output + part;
      }
    }

    /** The keys of a dict are checked in insertion order before anything is written. */
    method CheckKeys(fields: seq<Field>, normal: Normal) returns (ok: bool)
      ensures ok <==> KeysAccepted(fields, normal) && KeyBytes(fields) <= MAX_ENCODED_BYTES
    {
      var total := 0;
      assert fields[..0] == [];
      for i := 0 to |fields|
        invariant forall j | 0 <= j < i :: AcceptsKey(fields[j].key, normal)
        invariant total == KeyBytes(fields[..i]) <= MAX_ENCODED_BYTES
      {
        KeyBytesPrefix(fields, i);
        KeyBytesPrefix(fields, i + 1);
        var k := fields[i].key;
        if k.OtherKey? || !AcceptsText(k.text) {
          return false;
        }
        total := total + |Utf8.Encode(k.text)|;
        if total > MAX_ENCODED_BYTES {
          return false;
        }
        if !normal(k.text) {
          return false;
        }
      }
      assert fields[..|fields|] == fields;
      ok := true;
    }

    /** Encoding succeeds exactly when the reference unfolds to an acceptable finite tree whose
        bytes still fit, and then appends exactly those bytes.  It always ends, whatever cycles
        the heap holds, and gives back the set of active containers it was called with. */
    method Encode(h: Heap, normal: Normal, r: Ref, depth: nat) returns (ok: bool)
      requires |output| <= MAX_ENCODED_BYTES && depth <= MAX_DEPTH + 1
      requires forall a | a in active :: Reaches(h, a, r)
      modifies this
      ensures active == old(active)
      ensures Wrote(ok, old(output), output, Expected(h, normal, r, depth))
      decreases MAX_DEPTH + 1 - depth, 1
    {
      if depth > MAX_DEPTH {
        return false;
      }
      match r
      case NullRef => ok := Append([0]);
      case BoolRef(b) => ok := Append(if b then [2] else [1]);
      case IntRef(n) =>
        if n < -MAX_SAFE_INTEGER || n > MAX_SAFE_INTEGER {
          return false;
        }
        ok := Append([3] + Pack(TwosComplement(n), 8));
      case StrRef(t) =>
        if !AcceptsText(t) {
          return false;
        }
        ok := Append(Framed(Utf8.Encode(t)));
      case OtherRef => ok := false;
      case ObjRef(id) =>
        if id in active {
          CycleNeverUnfolds(h, id, MAX_DEPTH + 1 - depth);
          return false;
        }
        if id !in h {
          return false;
        }
        ghost var outside := active;
        active := active + {id};
        if h[id].ListObj? {
          ok := EncodeList(h, normal, id, depth);
        } else {
          DictUnfolds(h, normal, id, depth);
          DictReorders(h, normal, h[id].fields, depth);
          ok := EncodeDict(h, normal, id, depth);
        }
        active := active - {id};
        assert active == outside;
    }

    method EncodeList(h: Heap, normal: Normal, id: nat, depth: nat) returns (ok: bool)
      requires |output| <= MAX_ENCODED_BYTES && depth <= MAX_DEPTH && id in h && h[id].ListObj?
      requires id in active && forall a | a in active && a != id :: Reaches(h, a, ObjRef(id))
      modifies this
      ensures active == old(active)
      ensures Wrote(ok, old(output), output, Expected(h, normal, ObjRef(id), depth))
      decreases MAX_DEPTH + 1 - depth, 0
    {
      hide Expected, ExpectedItems, Reaches, Pack;
      ListAsExpected(h, normal, id, depth);
      var items := h[id].items;
      if |items| > MAX_CONTAINER_ENTRIES {
        return false;
      }
      ok := Append([5] + Pack(|items|, 4));
      if !ok {
        return;
      }
      forall a, i | a in active && 0 <= i < |items| ensures Reaches(h, a, items[i]) {
        ReachesChild(h, a, id, items[i]);
      }
      ok := EncodeItems(h, normal, items, depth + 1);
    }

    method EncodeItems(h: Heap, normal: Normal, items: seq<Ref>, depth: nat) returns (ok: bool)
      requires |output| <= MAX_ENCODED_BYTES && depth <= MAX_DEPTH + 1
      requires AllReach(h, active, items)
      modifies this
      ensures active == old(active)
      ensures Wrote(ok, old(output), output, ExpectedItems(h, normal, items, depth))
      decreases MAX_DEPTH + 1 - depth, 2
    {
      for i := 0 to |items|
        invariant active == old(active) && |output| <= MAX_ENCODED_BYTES
        invariant ExpectedItems(h, normal, items[..i], depth).Some?
        invariant output == old(output) + ExpectedItems(h, normal, items[..i], depth).value
      {
        ok := Encode(h, normal, items[i], depth);
        ItemProgress(h, normal, items, depth, i, old(output), output, ok);
        if !ok {
          return;
        }
      }
      assert items[..|items|] == items;
      ok := true;
    }

    method EncodeDict(h: Heap, normal: Normal, id: nat, depth: nat) returns (ok: bool)
      requires |output| <= MAX_ENCODED_BYTES && depth <= MAX_DEPTH && id in h && h[id].DictObj?
      requires id in active && forall a | a in active && a != id :: Reaches(h, a, ObjRef(id))
      modifies this
      ensures active == old(active)
      ensures Wrote(ok, old(output), output, DictBytes(h, normal, h[id].fields, depth))
      decreases MAX_DEPTH + 1 - depth, 0
    {
      var fields := h[id].fields;
      if DictBytes(h, normal, fields, depth).Some? {
        BodyHoldsAllKeys(h, normal, fields, depth);
      }
      if |fields| > MAX_CONTAINER_ENTRIES {
        return false;
      }
      ok := CheckKeys(fields, normal);
      if !ok {
        return;
      }
      ReachesFields(h, id, active);
      ok := EncodeEntries(h, normal, Sort(FieldLeq, fields), depth + 1);
    }

    /** The entry count, then the entries, already in key order. */
    method EncodeEntries(h: Heap, normal: Normal, sorted: seq<Field>, depth: nat) returns (ok: bool)
      requires |output| <= MAX_ENCODED_BYTES && depth <= MAX_DEPTH + 1
      requires AllReach(h, active, Refs(sorted))
      modifies this
      ensures active == old(active)
      ensures Wrote(ok, old(output), output, Counted(|sorted|, ExpectedFields(h, normal, sorted, depth)))
      decreases MAX_DEPTH + 1 - depth, 3
    {
      ok := Append([6] + Pack(|sorted|, 4));
      if ok {
        ok := EncodeFields(h, normal, sorted, depth);
      }
      HeaderThenBody(old(output), [6] + Pack(|sorted|, 4), ExpectedFields(h, normal, sorted, depth),
                     Counted(|sorted|, ExpectedFields(h, normal, sorted, depth)), output, ok);
    }

    method EncodeFields(h: Heap, normal: Normal, fields: seq<Field>, depth: nat) returns (ok: bool)
      requires |output| <= MAX_ENCODED_BYTES && depth <= MAX_DEPTH + 1
      requires AllReach(h, active, Refs(fields))
      modifies this
      ensures active == old(active)
      ensures Wrote(ok, old(output), output, ExpectedFields(h, normal, fields, depth))
      decreases MAX_DEPTH + 1 - depth, 2
    {
      hide Expected, Reaches, Pack;
      for i := 0 to |fields|
        invariant active == old(active) && |output| <= MAX_ENCODED_BYTES
        invariant ExpectedFields(h, normal, fields[..i], depth).Some?
        invariant output == old(output) + ExpectedFields(h, normal, fields[..i], depth).value
      {
        ok := Append(Framed(Utf8.Encode(KeyText(fields[i].key))));
        if ok {
          ok := Encode(h, normal, fields[i].ref, depth);
        }
        FieldProgress(h, normal, fields, depth, i, old(output), output, ok);
        if !ok {
          return;
        }
      }
      assert fields[..|fields|] == fields;
      ok := true;
    }
  }

  /** consensus_value_bytes */
  method ValueBytes(h: Heap, normal: Normal, r: Ref) returns (bytes: Option<seq<Byte>>)
    ensures bytes.Some? <==> Expected(h, normal, r, 0).Some? && |Expected(h, normal, r, 0).value| <= MAX_ENCODED_BYTES
    ensures bytes.Some? ==> bytes == Expected(h, normal, r, 0)
  {
    var encoder := new Encoder();
    var ok := encoder.Encode(h, normal, r, 0);
    if ok {
      assert [] + Expected(h, normal, r, 0).value == Expected(h, normal, r, 0).value;
    }
    bytes := if ok then Some(encoder.output) else None;
  }

  /** Whatever holds itself, or leads to something that does, is rejected. */
  lemma CyclesAreRejected(h: Heap, normal: Normal, r: Ref, id: nat)
    requires Reaches(h, id, ObjRef(id))
    requires r == ObjRef(id) || (r.ObjRef? && Reaches(h, r.id, ObjRef(id)))
    ensures Expected(h, normal, r, 0).None?
  {
    if Unfold(h, r, MAX_DEPTH + 1).Some? {
      if r != ObjRef(id) {
        var path :| Path(h, path, ObjRef(id)) && path[0] == r.id;
        ReachedUnfolds(h, path, ObjRef(id), MAX_DEPTH + 1);
        CycleNeverUnfolds(h, id, MAX_DEPTH + 1 - |path|);
      } else {
        CycleNeverUnfolds(h, id, MAX_DEPTH + 1);
      }
    }
  }
}
