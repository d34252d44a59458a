/** The back-references of a stream: where a reader meets them, and what they name. */
module SyncReferences {
  import opened Bytes
  import opened JavaStreamReader
  import opened SyncTree
  import opened SyncWire
  import opened SyncReadBack
  import opened SyncDefinitions
  import opened SyncCounting
  import opened ReaderSoundness
  import opened SyncTheorems

  /** What a reader looks for at a TC_REFERENCE: a class, the type of a field of class `cls`, or a value.
      `open` are the objects it is in the middle of, the innermost last. */
  datatype Place = ClassPlace | TypePlace(cls: nat) | ValuePlace(open: seq<nat>)

  /** A TC_REFERENCE at position `at`, met when `known` handles had been assigned, to one of them. */
  datatype Mention = Mention(at: nat, place: Place, known: nat, handle: nat)

  function At(s: Bytes, p: nat, t: Table, place: Place): seq<Mention> {
    match ReadHandle(s, p + 1, t)
    case Parsed(h, _, _) => [Mention(p, place, |t|, h)]
    case Refused => []
  }

  function TypeMentions(s: Bytes, p: nat, t: Table, cls: nat): seq<Mention> {
    if p < |s| && s[p] == TC_REFERENCE then At(s, p, t, TypePlace(cls)) else []
  }

  function FieldMentions(s: Bytes, p: nat, t: Table, cls: nat): seq<Mention> {
    match ReadUtf(s, p + 1, t)
    case Parsed(_, q, _) => if p < |s| && s[p] == FIELD_OBJECT then TypeMentions(s, q, t, cls) else []
    case Refused => []
  }

  /** The references the reader meets in `count` field descriptors. */
  function FieldsMentions(s: Bytes, p: nat, t: Table, count: nat, cls: nat): seq<Mention>
    decreases count
  {
    if count == 0 then [] else
      match ReadFieldDesc(s, p, t)
      case Parsed(_, q, u) => FieldMentions(s, p, t, cls) + FieldsMentions(s, q, u, count - 1, cls)
      case Refused => []
  }

  function ClassMentions(s: Bytes, p: nat, t: Table): seq<Mention> {
    if p < |s| && s[p] == TC_REFERENCE then
      At(s, p, t, ClassPlace)
    else if p < |s| && s[p] == TC_CLASSDESC then
      match ReadUtf(s, p + 1, t)
      case Parsed(name, q, _) =>
        if q + 11 <= |s| then
          FieldsMentions(s, q + 11, t + [ClassEntry(ClassDesc(name, s[q..q + 8], 0, []))],
                         Unsigned(s[q + 9..q + 11]), |t|)
        else
          []
      case Refused => []
    else
      []
  }

  /** The references the reader meets in the object at p. */
  function ObjectMentions(s: Bytes, p: nat, t: Table, open: seq<nat>): seq<Mention>
    decreases |s| - p, 0
  {
    if p >= |s| then []
    else if s[p] == TC_REFERENCE then At(s, p, t, ValuePlace(open))
    else if s[p] == TC_OBJECT then ClassMentions(s, p + 1, t) + BodyMentions(s, p + 1, t, open)
    else []
  }

  /** Those after its class: in its fields and in what its class writes behind them. */
  function BodyMentions(s: Bytes, p: nat, t: Table, open: seq<nat>): seq<Mention>
    decreases |s| - p, 0
  {
    match ReadClassDesc(s, p, t)
    case Refused => []
    case Parsed(desc, p1, t1) =>
      var t2 := t1 + [ObjectEntry(desc.name)];
      ValuesMentions(s, p1, t2, desc.fields, 0, open + [|t1|])
      + match ReadValues(s, p1, t2, desc.fields, 0)
        case Parsed(_, p2, t3) =>
          if desc.flags == SC_SERIALIZABLE_WITH_WRITE_METHOD then ContentsMentions(s, p2, t3, open + [|t1|]) else []
        case Refused => []
  }

  function ValuesMentions(s: Bytes, p: nat, t: Table, fields: seq<FieldDesc>, k: nat, open: seq<nat>): seq<Mention>
    requires k <= |fields|
    decreases |s| - p, 2, |fields| - k
  {
    if k == |fields| then [] else
      (if fields[k].code == FIELD_OBJECT then ObjectMentions(s, p, t, open) else [])
      + match ReadValue(s, p, t, fields[k].code)
        case Parsed(_, q, u) => ValuesMentions(s, q, u, fields, k + 1, open)
        case Refused => []
  }

  function ContentsMentions(s: Bytes, p: nat, t: Table, open: seq<nat>): seq<Mention>
    decreases |s| - p, 2
  {
    if p >= |s| || s[p] == TC_ENDBLOCKDATA then
      []
    else if s[p] == TC_BLOCKDATA then
      match ReadBytes(s, p + 1, t, 1)
      case Parsed(size, q, _) =>
        if q + size[0] <= |s| then ContentsMentions(s, q + size[0], t, open) else []
      case Refused => []
    else
      ObjectMentions(s, p, t, open)
      + match ReadObject(s, p, t)
        case Parsed(_, q, u) => ContentsMentions(s, q, u, open)
        case Refused => []
  }

  /** The handles of the references met as values, in order. */
  function ValueHandles(ms: seq<Mention>): seq<nat> {
    if ms == [] then [] else ValueHandle(ms[0]) + ValueHandles(ms[1..])
  }

  function ValueHandle(m: Mention): seq<nat> {
    if m.place.ValuePlace? then [m.handle] else []
  }

  /** The references in a value, in order. */
  function References(v: Value): seq<nat>
    decreases v
  {
    match v
    case ReferenceValue(h) => [h]
    case SharedString(h, _) => [h]
    case ObjectValue(_, desc, fields, annotation) =>
      AllReferences(fields)
      + if desc.flags == SC_SERIALIZABLE_WITH_WRITE_METHOD then AllReferences(annotation) else []
    case _ => []
  }

  function AllReferences(vs: seq<Value>): seq<nat>
    decreases vs
  {
    if vs == [] then [] else References(vs[0]) + AllReferences(vs[1..])
  }

  lemma FirstReferences(v: Value, rest: seq<Value>)
    ensures AllReferences([v] + rest) == References(v) + AllReferences(rest)
  {
    hide References;
    assert ([v] + rest)[1..] == rest;
  }

  lemma Regroup(a: seq<nat>, b: seq<nat>, c: seq<nat>)
    ensures a + (b + c) == (a + b) + c
  {}

  lemma {:induction false} ValueHandlesJoin(a: seq<Mention>, b: seq<Mention>)
    ensures ValueHandles(a + b) == ValueHandles(a) + ValueHandles(b)
    decreases |a|
  {
    hide ValueHandle;
    if a == [] {
      assert a + b == b;
    } else {
      assert (a + b)[0] == a[0] && (a + b)[1..] == a[1..] + b;
      ValueHandlesJoin(a[1..], b);
      Regroup(ValueHandle(a[0]), ValueHandles(a[1..]), ValueHandles(b));
    }
  }

  lemma {:induction false} FieldsMeetNoValue(s: Bytes, p: nat, t: Table, count: nat, cls: nat)
    ensures ValueHandles(FieldsMentions(s, p, t, count, cls)) == []
    decreases count
  {
    hide ReadFieldDesc, ReadHandle, ReadUtf;
    if count > 0 {
      var r := ReadFieldDesc(s, p, t);
      if r.Parsed? {
        FieldsMeetNoValue(s, r.pos, r.table, count - 1, cls);
        ValueHandlesJoin(FieldMentions(s, p, t, cls), FieldsMentions(s, r.pos, r.table, count - 1, cls));
      }
    }
  }

  lemma ClassMeetsNoValue(s: Bytes, p: nat, t: Table)
    ensures ValueHandles(ClassMentions(s, p, t)) == []
  {
    hide FieldsMentions, ReadHandle, ReadUtf, Unsigned;
    if p < |s| && s[p] == TC_CLASSDESC {
      var name := ReadUtf(s, p + 1, t);
      if name.Parsed? && name.pos + 11 <= |s| {
        var q := name.pos;
        FieldsMeetNoValue(s, q + 11, t + [ClassEntry(ClassDesc(name.value, s[q..q + 8], 0, []))],
                          Unsigned(s[q + 9..q + 11]), |t|);
      }
    }
  }

  /** None is missed: the references met as values are exactly those of the value, in order, for any bytes. */
  lemma {:induction false} AllAreMet(s: Bytes, p: nat, t: Table, open: seq<nat>)
    requires ReadObject(s, p, t).Parsed?
    ensures ValueHandles(ObjectMentions(s, p, t, open)) == References(ReadObject(s, p, t).value)
    decreases |s| - p, 0
  {
    hide ReadNewString, ReadNewObject, ReadHandle, ClassMentions, BodyMentions;
    if s[p] == TC_OBJECT {
      BodyIsMet(s, p + 1, t, open);
      ClassMeetsNoValue(s, p + 1, t);
      ValueHandlesJoin(ClassMentions(s, p + 1, t), BodyMentions(s, p + 1, t, open));
    } else if s[p] == TC_STRING {
      NewStringRefersToNothing(s, p + 1, t);
    }
  }

  lemma NewStringRefersToNothing(s: Bytes, p: nat, t: Table)
    requires ReadNewString(s, p, t).Parsed?
    ensures References(ReadNewString(s, p, t).value) == []
  {}

  lemma {:induction false} BodyIsMet(s: Bytes, p: nat, t: Table, open: seq<nat>)
    requires ReadNewObject(s, p, t).Parsed?
    ensures ValueHandles(BodyMentions(s, p, t, open)) == References(ReadNewObject(s, p, t).value)
    decreases |s| - p, 0
  {
    hide ReadClassDesc, ReadValues, ReadContents, ValuesMentions, ContentsMentions, ValueHandles;
    var desc := ReadClassDesc(s, p, t);
    var h := |desc.table|;
    var t2 := desc.table + [ObjectEntry(desc.value.name)];
    var fields := ReadValues(s, desc.pos, t2, desc.value.fields, 0);
    ValuesAreMet(s, desc.pos, t2, desc.value.fields, 0, open + [h]);
    var values := ValuesMentions(s, desc.pos, t2, desc.value.fields, 0, open + [h]);
    if desc.value.flags == SC_SERIALIZABLE_WITH_WRITE_METHOD {
      ContentsAreMet(s, fields.pos, fields.table, open + [h]);
      ValueHandlesJoin(values, ContentsMentions(s, fields.pos, fields.table, open + [h]));
    } else {
      assert values + [] == values;
    }
  }

  lemma {:induction false} ValuesAreMet(s: Bytes, p: nat, t: Table, fields: seq<FieldDesc>, k: nat, open: seq<nat>)
    requires k <= |fields| && ReadValues(s, p, t, fields, k).Parsed?
    ensures ValueHandles(ValuesMentions(s, p, t, fields, k, open))
         == AllReferences(ReadValues(s, p, t, fields, k).value)
    decreases |s| - p, 2, |fields| - k
  {
    hide ReadObject, ObjectMentions, Signed, ValueHandles, AllReferences;
    NothingMet();
    if k < |fields| {
      var code := fields[k].code;
      var r := ReadValue(s, p, t, code);
      var rest := ReadValues(s, r.pos, r.table, fields, k + 1);
      if code == FIELD_OBJECT {
        AllAreMet(s, p, t, open);
      }
      ValuesAreMet(s, r.pos, r.table, fields, k + 1, open);
      ValueHandlesJoin(if code == FIELD_OBJECT then ObjectMentions(s, p, t, open) else [],
                       ValuesMentions(s, r.pos, r.table, fields, k + 1, open));
      FirstReferences(r.value, rest.value);
    }
  }

  lemma NothingMet()
    ensures ValueHandles([]) == [] && AllReferences([]) == []
  {}

  lemma {:induction false} ContentsAreMet(s: Bytes, p: nat, t: Table, open: seq<nat>)
    requires ReadContents(s, p, t).Parsed?
    ensures ValueHandles(ContentsMentions(s, p, t, open)) == AllReferences(ReadContents(s, p, t).value)
    decreases |s| - p, 2
  {
    hide ReadObject, ObjectMentions, ValueHandles, AllReferences;
    NothingMet();
    if s[p] == TC_ENDBLOCKDATA {
    } else if s[p] == TC_BLOCKDATA {
      var q := p + 2 + ReadBytes(s, p + 1, t, 1).value[0];
      ContentsAreMet(s, q, t, open);
      FirstReferences(BlockValue(s[p + 2..q]), ReadContents(s, q, t).value);
    } else {
      var r := ReadObject(s, p, t);
      AllAreMet(s, p, t, open);
      ContentsAreMet(s, r.pos, r.table, open);
      ValueHandlesJoin(ObjectMentions(s, p, t, open), ContentsMentions(s, r.pos, r.table, open));
      FirstReferences(r.value, ReadContents(s, r.pos, r.table).value);
    }
  }

  /** The reference stands where it says, and names a handle that had been assigned by then: to a class
      where a class is read, to the type of one of the fields where the fields of a class are read, and
      as a value to the directory two objects further out, which is still open: the directory whose list
      the object lies in. */
  ghost predicate Good(m: Mention, s: Bytes, t: Table) {
    && m.at + 5 <= |s| && s[m.at] == TC_REFERENCE
    && Unsigned(s[m.at + 1..m.at + 5]) == BASE_WIRE_HANDLE + m.handle
    && m.handle < m.known <= |t|
    && match m.place
       case ClassPlace => t[m.handle].ClassEntry?
       case TypePlace(cls) =>
         && t[m.handle].StringEntry? && cls < |t| && t[cls].ClassEntry?
         && exists f | f in t[cls].desc.fields :: f.code == FIELD_OBJECT && f.typeName == t[m.handle].s
       case ValuePlace(open) =>
         t[m.handle] == ObjectEntry(DIRECTORY_CLASS) && |open| >= 3 && m.handle == open[|open| - 3]
  }

  ghost predicate AllGood(ms: seq<Mention>, s: Bytes, t: Table) {
    forall m | m in ms :: Good(m, s, t)
  }

  lemma AllGoodJoin(a: seq<Mention>, b: seq<Mention>, s: Bytes, t: Table)
    requires AllGood(a, s, t) && AllGood(b, s, t)
    ensures AllGood(a + b, s, t)
  {
    hide Good;
  }

  lemma AtGood(s: Bytes, p: nat, t: Table, place: Place, u: Table, h: nat)
    requires p < |s| && s[p] == TC_REFERENCE && |t| <= |u|
    requires ReadHandle(s, p + 1, t).Parsed? && h == ReadHandle(s, p + 1, t).value
    requires match place
             case ClassPlace => u[h].ClassEntry?
             case TypePlace(cls) =>
               && u[h].StringEntry? && cls < |u| && u[cls].ClassEntry?
               && exists f | f in u[cls].desc.fields :: f.code == FIELD_OBJECT && f.typeName == u[h].s
             case ValuePlace(open) => u[h] == ObjectEntry(DIRECTORY_CLASS) && |open| >= 3 && h == open[|open| - 3]
    ensures AllGood(At(s, p, t, place), s, u)
  {
    hide Unsigned, Ascii;
  }

  /** The table u is what the table t grows into, apart from the class at cls, which is completed. */
  ghost predicate GrowsBut(t: Table, u: Table, cls: nat) {
    |t| <= |u| && forall i | 0 <= i < |t| && i != cls :: t[i] == u[i]
  }

  lemma FieldGood(s: Bytes, p: nat, t: Table, cls: nat, u: Table)
    requires var r := ReadFieldDesc(s, p, t);
      && r.Parsed? && GrowsBut(t, u, cls)
      && cls < |t| && t[cls].ClassEntry? && u[cls].ClassEntry? && r.value in u[cls].desc.fields
    ensures AllGood(FieldMentions(s, p, t, cls), s, u)
  {
    hide ReadHandle, ReadNewString, ReadUtf, AllGood, Good, At;
    var name := ReadUtf(s, p + 1, t);
    if name.Parsed? && p < |s| && s[p] == FIELD_OBJECT && name.pos < |s| && s[name.pos] == TC_REFERENCE {
      var h := ReadHandle(s, name.pos + 1, t).value;
      AtGood(s, name.pos, t, TypePlace(cls), u, h);
    } else {
      NoneGood(s, u);
    }
  }

  lemma NoneGood(s: Bytes, t: Table)
    ensures AllGood([], s, t)
  {}

  lemma {:induction false} FieldsGood(s: Bytes, p: nat, t: Table, count: nat, cls: nat, u: Table)
    requires TableFits(t)
    requires var r := ReadFieldDescs(s, p, t, count);
      && r.Parsed? && GrowsBut(r.table, u, cls)
      && cls < |t| && cls < |u| && t[cls].ClassEntry? && u[cls].ClassEntry?
      && forall f | f in r.value :: f in u[cls].desc.fields
    ensures AllGood(FieldsMentions(s, p, t, count, cls), s, u)
    decreases count
  {
    hide ReadFieldDesc, AllGood, FieldMentions, TableFits;
    if count == 0 {
      NoneGood(s, u);
    } else {
      FieldDescSound(s, p, t);
      var first := ReadFieldDesc(s, p, t);
      FieldDescsSound(s, first.pos, first.table, count - 1);
      var rest := ReadFieldDescs(s, first.pos, first.table, count - 1);
      assert first.value in [first.value] + rest.value;
      FieldGood(s, p, t, cls, u);
      FieldsGood(s, first.pos, first.table, count - 1, cls, u);
      AllGoodJoin(FieldMentions(s, p, t, cls), FieldsMentions(s, first.pos, first.table, count - 1, cls), s, u);
    }
  }

  lemma ClassGood(s: Bytes, p: nat, t: Table, u: Table)
    requires TableFits(t) && ReadClassDesc(s, p, t).Parsed? && ReadClassDesc(s, p, t).table <= u
    ensures AllGood(ClassMentions(s, p, t), s, u)
  {
    hide ReadHandle, ReadUtf, ReadFieldDescs, FieldsMentions, AllGood, Unsigned, TableFits, At;
    if s[p] == TC_REFERENCE {
      AtGood(s, p, t, ClassPlace, u, ReadHandle(s, p + 1, t).value);
    } else {
      var name := ReadUtf(s, p + 1, t);
      NewClassGood(s, name.pos, t, name.value, u);
    }
  }

  lemma NewClassGood(s: Bytes, q: nat, t: Table, name: Bytes, u: Table)
    requires TableFits(t) && q + 8 <= |s|
    requires var before := t + [ClassEntry(ClassDesc(name, s[q..q + 8], 0, []))];
      var r := ReadClassDescInfo(s, q + 8, before, name, s[q..q + 8], |t|);
      r.Parsed? && r.table <= u
    ensures q + 11 <= |s|
    ensures AllGood(FieldsMentions(s, q + 11, t + [ClassEntry(ClassDesc(name, s[q..q + 8], 0, []))],
                                   Unsigned(s[q + 9..q + 11]), |t|), s, u)
  {
    hide ReadFieldDescs, FieldsMentions, AllGood, Unsigned;
    var before := t + [ClassEntry(ClassDesc(name, s[q..q + 8], 0, []))];
    var count := Unsigned(s[q + 9..q + 11]);
    FieldDescsSound(s, q + 11, before, count);
    FieldsGood(s, q + 11, before, count, |t|, u);
  }

  /** The references in v name the directory they lie in, and no string is shared. */
  ghost predicate RefsOk(v: Value, open: seq<nat>, t: Table) {
    match v
    case SharedString(_, _) => false
    case ReferenceValue(h) =>
      h < |t| && t[h] == ObjectEntry(DIRECTORY_CLASS) && |open| >= 3 && h == open[|open| - 3]
    case ObjectValue(h, desc, fields, annotation) =>
      && (forall f | f in fields :: RefsOk(f, open + [h], t))
      && (desc.flags == SC_SERIALIZABLE_WITH_WRITE_METHOD ==> forall a | a in annotation :: RefsOk(a, open + [h], t))
    case _ => true
  }

  ghost predicate AllRefsOk(vs: seq<Value>, open: seq<nat>, t: Table) {
    forall v | v in vs :: RefsOk(v, open, t)
  }

  lemma {:induction false} ObjectGood(s: Bytes, p: nat, t: Table, open: seq<nat>, u: Table)
    requires TableFits(t) && ReadObject(s, p, t).Parsed? && ReadObject(s, p, t).table <= u
    requires RefsOk(ReadObject(s, p, t).value, open, u)
    ensures AllGood(ObjectMentions(s, p, t, open), s, u)
    decreases |s| - p, 0
  {
    hide ReadNewString, ReadNewObject, ReadHandle, AllGood, ClassMentions, BodyMentions, At, TableFits, Ascii;
    if s[p] == TC_REFERENCE {
      AtGood(s, p, t, ValuePlace(open), u, ReadHandle(s, p + 1, t).value);
    } else if s[p] == TC_OBJECT {
      BodyGood(s, p + 1, t, open, u);
      AllGoodJoin(ClassMentions(s, p + 1, t), BodyMentions(s, p + 1, t, open), s, u);
    } else {
      NoneGood(s, u);
    }
  }

  lemma {:induction false} BodyGood(s: Bytes, p: nat, t: Table, open: seq<nat>, u: Table)
    requires TableFits(t) && ReadNewObject(s, p, t).Parsed? && ReadNewObject(s, p, t).table <= u
    requires RefsOk(ReadNewObject(s, p, t).value, open, u)
    ensures AllGood(ClassMentions(s, p, t), s, u) && AllGood(BodyMentions(s, p, t, open), s, u)
    decreases |s| - p, 0
  {
    hide ReadClassDesc, ReadValues, ReadContents, AllGood, ClassMentions, ValuesMentions, ContentsMentions, Ascii;
    ClassDescSound(s, p, t);
    var desc := ReadClassDesc(s, p, t);
    var h := |desc.table|;
    var t2 := desc.table + [ObjectEntry(desc.value.name)];
    ValuesAreSound(s, desc.pos, t2, desc.value.fields, 0);
    var fields := ReadValues(s, desc.pos, t2, desc.value.fields, 0);
    ContentsSound(s, fields.pos, fields.table);
    assert t2 <= fields.table <= u;
    ClassGood(s, p, t, u);
    ValuesGood(s, desc.pos, t2, desc.value.fields, 0, open + [h], u);
    var values := ValuesMentions(s, desc.pos, t2, desc.value.fields, 0, open + [h]);
    if desc.value.flags == SC_SERIALIZABLE_WITH_WRITE_METHOD {
      ContentsGood(s, fields.pos, fields.table, open + [h], u);
      AllGoodJoin(values, ContentsMentions(s, fields.pos, fields.table, open + [h]), s, u);
    } else {
      NoneGood(s, u);
      AllGoodJoin(values, [], s, u);
    }
  }

  lemma {:induction false} ValuesGood(s: Bytes, p: nat, t: Table, fields: seq<FieldDesc>, k: nat,
                                      open: seq<nat>, u: Table)
    requires TableFits(t) && k <= |fields|
    requires var r := ReadValues(s, p, t, fields, k); r.Parsed? && r.table <= u && AllRefsOk(r.value, open, u)
    ensures AllGood(ValuesMentions(s, p, t, fields, k, open), s, u)
    decreases |s| - p, 2, |fields| - k
  {
    hide ReadObject, ObjectMentions, AllGood, TableFits, Signed, RefsOk;
    NoneGood(s, u);
    if k < |fields| {
      var code := fields[k].code;
      FieldValueSound(s, p, t, code);
      var r := ReadValue(s, p, t, code);
      ValuesAreSound(s, r.pos, r.table, fields, k + 1);
      var rest := ReadValues(s, r.pos, r.table, fields, k + 1);
      assert rest.value == ([r.value] + rest.value)[1..] && r.value in [r.value] + rest.value;
      if code == FIELD_OBJECT {
        ObjectGood(s, p, t, open, u);
      }
      ValuesGood(s, r.pos, r.table, fields, k + 1, open, u);
      AllGoodJoin(if code == FIELD_OBJECT then ObjectMentions(s, p, t, open) else [],
                  ValuesMentions(s, r.pos, r.table, fields, k + 1, open), s, u);
    }
  }

  lemma {:induction false} ContentsGood(s: Bytes, p: nat, t: Table, open: seq<nat>, u: Table)
    requires TableFits(t)
    requires var r := ReadContents(s, p, t); r.Parsed? && r.table <= u && AllRefsOk(r.value, open, u)
    ensures AllGood(ContentsMentions(s, p, t, open), s, u)
    decreases |s| - p, 2
  {
    hide ReadObject, ObjectMentions, AllGood, TableFits, RefsOk;
    if s[p] == TC_ENDBLOCKDATA {
      NoneGood(s, u);
    } else if s[p] == TC_BLOCKDATA {
      var q := p + 2 + ReadBytes(s, p + 1, t, 1).value[0];
      var rest := ReadContents(s, q, t);
      assert forall v | v in rest.value :: v in ReadContents(s, p, t).value;
      ContentsGood(s, q, t, open, u);
    } else {
      ObjectSound(s, p, t);
      var r := ReadObject(s, p, t);
      ContentsSound(s, r.pos, r.table);
      var rest := ReadContents(s, r.pos, r.table);
      assert forall v | v in [r.value] + rest.value :: v in ReadContents(s, p, t).value;
      ObjectGood(s, p, t, open, u);
      ContentsGood(s, r.pos, r.table, open, u);
      AllGoodJoin(ObjectMentions(s, p, t, open), ContentsMentions(s, r.pos, r.table, open), s, u);
    }
  }

  /** A node refers to nothing but the directory it lies in. */
  lemma {:induction false} NodeRefs(v: Value, parent: Option<nat>, open: seq<nat>, t: Table)
    requires NodeOf(v, parent).Some? && Fresh(v) && Sound(v, t)
    requires parent.Some? ==> |open| >= 2 && open[|open| - 2] == parent.value
                              && parent.value < |t| && t[parent.value] == ObjectEntry(DIRECTORY_CLASS)
    ensures RefsOk(v, open, t)
    decreases v
  {
    hide Ascii;
    ClassesDiffer();
    var f, inner := v.fields, open + [v.handle];
    if v.desc == LEAF_DESC {
      ParentRef(f[6], parent, open, v.handle, t);
      assert f[5] in f && f[7] in f;
      LeafRefs(f, inner, t);
    } else {
      ParentRef(f[6], parent, open, v.handle, t);
      assert f[4] in f && f[5] in f;
      ListRefs(f[4], v.handle, inner, t);
      DirectoryRefs(f, inner, t);
    }
  }

  lemma ParentRef(v: Value, parent: Option<nat>, open: seq<nat>, h: nat, t: Table)
    requires IsParent(v, parent)
    requires parent.Some? ==> |open| >= 2 && open[|open| - 2] == parent.value
                              && parent.value < |t| && t[parent.value] == ObjectEntry(DIRECTORY_CLASS)
    ensures RefsOk(v, open + [h], t)
  {
    hide Ascii;
  }

  lemma LeafRefs(f: seq<Value>, open: seq<nat>, t: Table)
    requires |f| == 8 && f[0].BoolValue? && f[1].LongValue? && f[2].BoolValue? && f[3].LongValue? && f[4].BoolValue?
    requires f[5].StringValue? && RefsOk(f[6], open, t) && f[7].StringValue?
    ensures AllRefsOk(f, open, t)
  {
    hide Ascii;
  }

  lemma DirectoryRefs(f: seq<Value>, open: seq<nat>, t: Table)
    requires |f| == 7 && f[0].BoolValue? && f[1].BoolValue? && f[2].BoolValue? && f[3].BoolValue?
    requires RefsOk(f[4], open, t) && f[5].StringValue? && RefsOk(f[6], open, t)
    ensures AllRefsOk(f, open, t)
  {
    hide Ascii;
  }

  lemma {:induction false} ListRefs(list: Value, self: nat, open: seq<nat>, t: Table)
    requires list.ObjectValue? && IsArrayList(list) && NodesOf(list.annotation[1..], self).Some? && Fresh(list)
    requires Sound(list, t) && |open| > 0 && open[|open| - 1] == self
    requires self < |t| && t[self] == ObjectEntry(DIRECTORY_CLASS)
    ensures RefsOk(list, open, t)
    decreases list
  {
    hide Ascii, NodeOf;
    var inner := open + [list.handle];
    forall a | a in list.annotation ensures RefsOk(a, inner, t) {
      if a != list.annotation[0] {
        assert a in list.annotation[1..];
        EachNode(list.annotation[1..], self, a);
        NodeRefs(a, Some(self), inner, t);
      }
    }
  }

  lemma {:induction false} EachNode(vs: seq<Value>, self: nat, v: Value)
    requires NodesOf(vs, self).Some? && v in vs
    ensures NodeOf(v, Some(self)).Some?
    decreases vs
  {
    hide NodeOf;
    if v != vs[0] {
      EachNode(vs[1..], self, v);
    }
  }

  /** What the references of a stream name, for the three classes the writer knows. */
  ghost predicate NamesItem(m: Mention, t: Table)
    requires m.handle < |t|
  {
    match m.place
    case ClassPlace =>
      t[m.handle] in {ClassEntry(DIRECTORY_DESC), ClassEntry(ARRAY_LIST_DESC), ClassEntry(LEAF_DESC)}
    case TypePlace(_) =>
      t[m.handle] in {StringEntry(LIST_TYPE), StringEntry(STRING_TYPE), StringEntry(DIRECTORY_TYPE)}
    case ValuePlace(open) =>
      t[m.handle] == ObjectEntry(DIRECTORY_CLASS) && |open| >= 3 && m.handle == open[|open| - 3]
  }

  lemma KnownItem(m: Mention, s: Bytes, t: Table, d: Definitions)
    requires Good(m, s, t) && DefinitionsAgree(d, t)
    ensures NamesItem(m, t)
  {
    hide Ascii, Unsigned, Denotes;
    match m.place
    case ClassPlace => KnownClass(t, d, m.handle);
    case TypePlace(cls) =>
      KnownClass(t, d, cls);
      var f :| f in t[cls].desc.fields && f.code == FIELD_OBJECT && f.typeName == t[m.handle].s;
      KnownTypes(t[cls].desc, f);
    case ValuePlace(_) =>
  }

  lemma KnownClass(t: Table, d: Definitions, i: nat)
    requires DefinitionsAgree(d, t) && i < |t| && t[i].ClassEntry?
    ensures t[i] in {ClassEntry(DIRECTORY_DESC), ClassEntry(ARRAY_LIST_DESC), ClassEntry(LEAF_DESC)}
  {
    assert BASE_WIRE_HANDLE + i in {d.treeDirectory, d.arrayList, d.treeLeaf};
    hide Ascii;
  }

  lemma KnownTypes(desc: ClassDesc, f: FieldDesc)
    requires desc in {DIRECTORY_DESC, ARRAY_LIST_DESC, LEAF_DESC} && f in desc.fields && f.code == FIELD_OBJECT
    ensures f.typeName in {LIST_TYPE, STRING_TYPE, DIRECTORY_TYPE}
  {
    hide Ascii;
  }

  /** Back-reference soundness of the writer: every TC_REFERENCE that a reader meets in its output names a
      handle that had been assigned before that point of the stream, to what its place asks for: one of
      the three classes, the type string of a field of the class being read, or, as the parent of a node,
      the directory in whose list the node lies, which is still being read. */
  lemma BackReferences(n: Node)
    requires n.Directory? && StringsFit(n) && HandleCount(n) <= MAX_HANDLES
    ensures ReadObject(Body(true, n), 0, []).Parsed?
    ensures var s := Body(true, n); var t := ReadObject(s, 0, []).table;
            forall m | m in ObjectMentions(s, 0, [], []) :: Good(m, s, t) && NamesItem(m, t)
  {
    ReadsBody(true, n);
    FreshCount(n, 0);
    hide Body, ReadObject, ObjectMentions, Good, NamesItem, NodeOf, Fresh, Sound, RefsOk, Emit, Ascii, DefinitionsAgree;
    var s := Body(true, n);
    var r := ReadObject(s, 0, []);
    ObjectSound(s, 0, []);
    NodeRefs(r.value, None, [], r.table);
    ObjectGood(s, 0, [], [], r.table);
    forall m | m in ObjectMentions(s, 0, [], []) ensures Good(m, s, r.table) && NamesItem(m, r.table) {
      assert Good(m, s, r.table);
      KnownItem(m, s, r.table, Emit(true, n, 0, FRESH).st.defs);
    }
  }
}
