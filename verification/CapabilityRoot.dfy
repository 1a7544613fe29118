/** nir/memory.py: the state root of the capability memory.  The memory's sets and maps are
    written out in sorted order and hashed through the consensus codec. */
module CapabilityRoots {
  import opened Ordering
  import opened Results
  import opened ConsensusCodec

  type Scores = map<Text, int>

  /** The part of the memory the root commits to. */
  datatype Contents = Contents(records: map<Text, Scores>, behaviors: set<Text>, contents: set<Text>, contentOf: map<Text, Text>)

  /** SHA3-256, and Unicode's NFC test, which this model does not contain. */
  datatype Crypto = Crypto(hash: seq<Byte> -> Text, normal: Normal)

  // ----- sorted(a set)

  predicate Least(x: Text, s: set<Text>) {
    x in s && forall y | y in s :: TextLeq(x, y)
  }

  lemma LesserOf(x: Text, y: Text, s: set<Text>)
    requires x in s && Least(y, s - {x})
    ensures Least(x, s) || Least(y, s)
  {
    hide LexLeq;
    LexTotal(x, y);
    LexTotal(x, x);
    if TextLeq(x, y) {
      forall z | z in s ensures TextLeq(x, z) {
        if z != x {
          assert z in s - {x};
          LexTransitive(x, y, z);
        }
      }
    }
  }

  lemma {:induction false} LeastExists(s: set<Text>)
    requires s != {}
    ensures exists x :: Least(x, s)
  {
    hide LexLeq;
    var x :| x in s;
    LexTotal(x, x);
    if s == {x} {
      assert Least(x, s);
    } else {
      assert s - {x} != {};
      LeastExists(s - {x});
      var y :| Least(y, s - {x});
      LesserOf(x, y, s);
    }
  }

  lemma LeastIsUnique(s: set<Text>)
    ensures forall x: Text, y: Text | Least(x, s) && Least(y, s) :: x == y
  {
    hide LexLeq;
    forall x: Text, y: Text | Least(x, s) && Least(y, s) ensures x == y {
      LexTotal(x, y);
    }
  }

  function Arrange(s: set<Text>): (r: seq<Text>)
    ensures |r| == |s|
  {
    if s == {} then []
    else
      LeastExists(s);
      LeastIsUnique(s);
      var x :| Least(x, s);
      [x] + Arrange(s - {x})
  }

  lemma {:induction false} ArrangeHas(s: set<Text>)
    ensures Distinct(Arrange(s)) && forall x :: x in Arrange(s) <==> x in s
  {
    if s != {} {
      LeastExists(s);
      LeastIsUnique(s);
      var x :| Least(x, s);
      ArrangeHas(s - {x});
    }
  }

  /** Written out, a set ascends strictly. */
  lemma {:induction false} ArrangeAscends(s: set<Text>, i: nat, j: nat)
    requires i < j < |s|
    ensures Below(Arrange(s)[i], Arrange(s)[j])
    decreases |s|
  {
    hide LexLeq, Below;
    LeastExists(s);
    LeastIsUnique(s);
    var x :| Least(x, s);
    if i > 0 {
      ArrangeAscends(s - {x}, i - 1, j - 1);
    } else {
      ArrangeHas(s - {x});
      var y := Arrange(s - {x})[j - 1];
      assert y in s - {x} && TextLeq(x, y);
      LexIsBelow(x, y);
    }
  }

  // ----- Values of sets and maps

  function TextList(s: set<Text>): Value {
    List(Map((t: Text) => Str(t), Arrange(s)))
  }

  function EntriesFor(keys: seq<Text>, m: map<Text, Value>): (r: seq<Entry>)
    requires forall k | k in keys :: k in m
    ensures |r| == |keys|
    ensures forall i | 0 <= i < |keys| :: r[i] == Entry(TextKey(keys[i]), m[keys[i]])
  {
    if keys == [] then []
    else
      assert keys[0] in keys && forall k | k in keys[1..] :: k in keys;
      [Entry(TextKey(keys[0]), m[keys[0]])] + EntriesFor(keys[1..], m)
  }

  function DictOf(m: map<Text, Value>): Value {
    ArrangeHas(m.Keys);
    Dict(EntriesFor(Arrange(m.Keys), m))
  }

  lemma {:induction false} ItemMeaningAt(items: seq<Value>, i: nat)
    requires i < |items|
    ensures ItemMeanings(items)[i] == Meaning(items[i])
  {
    if i > 0 {
      ItemMeaningAt(items[1..], i - 1);
    }
  }

  ghost function Meanings(m: map<Text, Value>): map<Text, Data> {
    map k | k in m :: Meaning(m[k])
  }

  lemma SlotsOfEntries(keys: seq<Text>, m: map<Text, Value>)
    requires forall k | k in keys :: k in m
    ensures forall i | 0 <= i < |keys| ::
              && Slots(EntriesFor(keys, m))[i].key == keys[i]
              && Slots(EntriesFor(keys, m))[i].data == Meaning(m[keys[i]])
  {
    hide Meaning, Bytes;
    forall i | 0 <= i < |keys|
      ensures Slots(EntriesFor(keys, m))[i].key == keys[i]
      ensures Slots(EntriesFor(keys, m))[i].data == Meaning(m[keys[i]])
    {
      SlotAt(EntriesFor(keys, m), i);
    }
  }

  lemma FieldsAre(keys: seq<Text>, slots: seq<Slot>, m: map<Text, Data>)
    requires Distinct(keys) && (forall k :: k in keys <==> k in m) && |slots| == |keys|
    requires forall i | 0 <= i < |keys| :: slots[i].key == keys[i] && slots[i].data == m[keys[i]]
    ensures FieldMap(slots) == m
  {
    hide FieldMap;
    FieldMapHas(slots);
    forall k ensures k in FieldMap(slots) <==> k in m {
      if k in m {
        var i :| 0 <= i < |keys| && keys[i] == k;
        assert slots[i].key == k;
      }
    }
    forall k | k in m ensures FieldMap(slots)[k] == m[k] {
      var i :| 0 <= i < |keys| && keys[i] == k;
      assert slots[i].key == k;
    }
  }

  lemma DictMeans(m: map<Text, Value>)
    ensures Meaning(DictOf(m)) == DMap(Meanings(m))
  {
    ArrangeHas(m.Keys);
    hide Arrange, Slots, EntriesFor, FieldMap, SlotOf;
    SlotsOfEntries(Arrange(m.Keys), m);
    FieldsAre(Arrange(m.Keys), Slots(EntriesFor(Arrange(m.Keys), m)), Meanings(m));
  }

  lemma DictsAgree(x: map<Text, Value>, y: map<Text, Value>)
    requires Meaning(DictOf(x)) == Meaning(DictOf(y))
    ensures x.Keys == y.Keys && forall k | k in x :: Meaning(x[k]) == Meaning(y[k])
  {
    hide DictOf, Meaning;
    DictMeans(x);
    DictMeans(y);
    assert Meanings(x).Keys == x.Keys && Meanings(y).Keys == y.Keys;
    forall k | k in x ensures Meaning(x[k]) == Meaning(y[k]) {
      assert Meanings(x)[k] == Meanings(y)[k];
    }
  }

  lemma DictIsWellformed(m: map<Text, Value>)
    requires forall k | k in m :: Wellformed(m[k])
    ensures Wellformed(DictOf(m))
  {
    hide Arrange;
    ArrangeHas(m.Keys);
  }

  lemma SameListSameSet(a: set<Text>, b: set<Text>)
    requires Meaning(TextList(a)) == Meaning(TextList(b))
    ensures a == b
  {
    hide Arrange, TextLeq;
    var x, y := Map((t: Text) => Str(t), Arrange(a)), Map((t: Text) => Str(t), Arrange(b));
    assert ItemMeanings(x) == ItemMeanings(y);
    assert |Arrange(a)| == |Arrange(b)|;
    forall i | 0 <= i < |Arrange(a)| ensures Arrange(a)[i] == Arrange(b)[i] {
      ItemMeaningAt(x, i);
      ItemMeaningAt(y, i);
    }
    ArrangeHas(a);
    ArrangeHas(b);
    forall t ensures t in a <==> t in b {
      assert t in Arrange(a) <==> t in Arrange(b);
    }
  }

  // ----- The root

  function ScoreFields(s: Scores): map<Text, Value> {
    map c | c in s :: Int(s[c])
  }

  function TextFields(m: map<Text, Text>): map<Text, Value> {
    map k | k in m :: Str(m[k])
  }

  function RecordFields(records: map<Text, Scores>): map<Text, Value> {
    map a | a in records :: DictOf(ScoreFields(records[a]))
  }

  /** "behaviors" */
  function BehaviorsKey(): (t: Text)
    ensures |t| == 9
  {
    [98, 101, 104, 97, 118, 105, 111, 114, 115]
  }

  /** "contentByArtifact" */
  function ContentByArtifactKey(): (t: Text)
    ensures |t| == 17
  {
    [99, 111, 110, 116, 101, 110, 116, 66, 121, 65, 114, 116, 105, 102, 97, 99, 116]
  }

  /** "contents" */
  function ContentsKey(): (t: Text)
    ensures |t| == 8
  {
    [99, 111, 110, 116, 101, 110, 116, 115]
  }

  /** "records" */
  function RecordsKey(): (t: Text)
    ensures |t| == 7
  {
    [114, 101, 99, 111, 114, 100, 115]
  }

  function Fields(c: Contents): map<Text, Value> {
    map[
      BehaviorsKey() := TextList(c.behaviors),
      ContentByArtifactKey() := DictOf(TextFields(c.contentOf)),
      ContentsKey() := TextList(c.contents),
      RecordsKey() := DictOf(RecordFields(c.records))]
  }

  lemma FieldsHave(c: Contents)
    ensures BehaviorsKey() in Fields(c) && Fields(c)[BehaviorsKey()] == TextList(c.behaviors)
    ensures ContentByArtifactKey() in Fields(c) && Fields(c)[ContentByArtifactKey()] == DictOf(TextFields(c.contentOf))
    ensures ContentsKey() in Fields(c) && Fields(c)[ContentsKey()] == TextList(c.contents)
    ensures RecordsKey() in Fields(c) && Fields(c)[RecordsKey()] == DictOf(RecordFields(c.records))
    ensures forall k | k in Fields(c) :: k == BehaviorsKey() || k == ContentByArtifactKey() || k == ContentsKey() || k == RecordsKey()
  {
    hide BehaviorsKey, ContentByArtifactKey, ContentsKey, RecordsKey, TextList, DictOf, TextFields, RecordFields;
  }

  function ContentsValue(c: Contents): Value {
    DictOf(Fields(c))
  }

  function Domain(): (d: Text)
    ensures ValidDomain(d)
  {
    // CAPABILITY_MEMORY
    [67, 65, 80, 65, 66, 73, 76, 73, 84, 89, 95, 77, 69, 77, 79, 82, 89]
  }

  predicate Encodable(x: Crypto, c: Contents) {
    Accepts(ContentsValue(c), 0, x.normal) && |Bytes(ContentsValue(c))| <= MAX_ENCODED_BYTES
  }

  function RootText(c: Contents): seq<Byte> {
    Envelope(Domain(), ContentsValue(c))
  }

  /** The root, or None where the codec raises an error. */
  function Root(x: Crypto, c: Contents): Option<Text> {
    if Encodable(x, c) then Some(x.hash(RootText(c))) else None
  }

  // ----- The root identifies the memory

  lemma ScoresMeanThemselves(a: Scores, b: Scores)
    requires Meaning(DictOf(ScoreFields(a))) == Meaning(DictOf(ScoreFields(b)))
    ensures a == b
  {
    hide DictOf;
    DictsAgree(ScoreFields(a), ScoreFields(b));
    assert a.Keys == ScoreFields(a).Keys && b.Keys == ScoreFields(b).Keys;
    forall c | c in a ensures a[c] == b[c] {
      assert Meaning(ScoreFields(a)[c]) == Meaning(ScoreFields(b)[c]);
    }
  }

  lemma TextsMeanThemselves(a: map<Text, Text>, b: map<Text, Text>)
    requires Meaning(DictOf(TextFields(a))) == Meaning(DictOf(TextFields(b)))
    ensures a == b
  {
    hide DictOf;
    DictsAgree(TextFields(a), TextFields(b));
    assert a.Keys == TextFields(a).Keys && b.Keys == TextFields(b).Keys;
    forall c | c in a ensures a[c] == b[c] {
      assert Meaning(TextFields(a)[c]) == Meaning(TextFields(b)[c]);
    }
  }

  lemma RecordsMeanThemselves(a: map<Text, Scores>, b: map<Text, Scores>)
    requires Meaning(DictOf(RecordFields(a))) == Meaning(DictOf(RecordFields(b)))
    ensures a == b
  {
    hide DictOf, Meaning;
    DictsAgree(RecordFields(a), RecordFields(b));
    assert a.Keys == RecordFields(a).Keys && b.Keys == RecordFields(b).Keys;
    forall r | r in a ensures a[r] == b[r] {
      assert Meaning(RecordFields(a)[r]) == Meaning(RecordFields(b)[r]);
      ScoresMeanThemselves(a[r], b[r]);
    }
  }

  lemma ContentsMeanThemselves(a: Contents, b: Contents)
    requires Meaning(ContentsValue(a)) == Meaning(ContentsValue(b))
    ensures a == b
  {
    hide DictOf, Meaning, TextList, Fields, TextFields, RecordFields, BehaviorsKey, ContentByArtifactKey, ContentsKey, RecordsKey;
    DictsAgree(Fields(a), Fields(b));
    FieldsHave(a);
    FieldsHave(b);
    SameListSameSet(a.behaviors, b.behaviors);
    SameListSameSet(a.contents, b.contents);
    TextsMeanThemselves(a.contentOf, b.contentOf);
    RecordsMeanThemselves(a.records, b.records);
  }

  lemma RecordsAreWellformed(records: map<Text, Scores>)
    ensures Wellformed(DictOf(RecordFields(records)))
  {
    hide DictOf;
    forall r | r in records ensures Wellformed(RecordFields(records)[r]) {
      DictIsWellformed(ScoreFields(records[r]));
    }
    DictIsWellformed(RecordFields(records));
  }

  lemma ContentsAreWellformed(c: Contents)
    ensures Wellformed(ContentsValue(c))
  {
    hide DictOf, Fields, RecordFields, Arrange, BehaviorsKey, ContentByArtifactKey, ContentsKey, RecordsKey;
    FieldsHave(c);
    RecordsAreWellformed(c.records);
    DictIsWellformed(TextFields(c.contentOf));
    DictIsWellformed(Fields(c));
  }

  /** Two memories with the same root are the same memory, unless the very two texts hashed for
      them collide. */
  lemma RootIdentifiesContents(x: Crypto, a: Contents, b: Contents)
    requires x.hash(RootText(a)) == x.hash(RootText(b)) ==> RootText(a) == RootText(b)
    requires Root(x, a).Some?
    ensures Root(x, a) == Root(x, b) <==> a == b
  {
    if Root(x, a) == Root(x, b) {
      ContentsAreWellformed(a);
      ContentsAreWellformed(b);
      EnvelopesNeverCoincide(Domain(), ContentsValue(a), Domain(), ContentsValue(b), x.normal);
      ContentsMeanThemselves(a, b);
    }
  }
}
