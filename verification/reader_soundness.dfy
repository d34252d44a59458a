/** What the reader guarantees of any input, whoever wrote it: the table only grows, every handle
    inside a value it returns names an entry of the right kind, and no string is longer than its
    16-bit length allows. */
module ReaderSoundness {
  import opened Bytes
  import opened JavaStreamReader
  import opened SyncTree

  ghost predicate TableFits(t: Table) {
    forall i | 0 <= i < |t| && t[i].StringEntry? :: StringFits(t[i].s)
  }

  /** The handles of v agree with the table. */
  ghost predicate Sound(v: Value, t: Table) {
    match v
    case StringValue(h, s) => StringFits(s) && h < |t| && t[h] == StringEntry(s)
    case SharedString(h, s) => StringFits(s) && h < |t| && t[h] == StringEntry(s)
    case ReferenceValue(h) => h < |t| && t[h].ObjectEntry?
    case ObjectValue(h, desc, fields, annotation) =>
      && h < |t| && t[h] == ObjectEntry(desc.name)
      && (forall f | f in fields :: Sound(f, t))
      && (forall a | a in annotation :: Sound(a, t))
    case _ => true
  }

  ghost predicate AllSound(vs: seq<Value>, t: Table) {
    forall v | v in vs :: Sound(v, t)
  }

  lemma {:induction false} SoundLonger(v: Value, t: Table, u: Table)
    requires Sound(v, t) && t <= u
    ensures Sound(v, u)
  {
    if v.ObjectValue? {
      forall f | f in v.fields ensures Sound(f, u) { SoundLonger(f, t, u); }
      forall a | a in v.annotation ensures Sound(a, u) { SoundLonger(a, t, u); }
    }
  }

  lemma AllSoundLonger(vs: seq<Value>, t: Table, u: Table)
    requires AllSound(vs, t) && t <= u
    ensures AllSound(vs, u)
  {
    forall v | v in vs ensures Sound(v, u) { SoundLonger(v, t, u); }
  }

  lemma UtfFits(s: Bytes, p: nat, t: Table)
    ensures ReadUtf(s, p, t).Parsed? ==> StringFits(ReadUtf(s, p, t).value)
  {
    if p + 2 <= |s| {
      var b := s[p..p + 2];
      assert Unsigned(b[..1]) == b[0] by {
        assert b[..1][..0] == [];
      }
      assert Unsigned(b) == (b[0] as int) * 256 + b[1];
    }
  }

  lemma NewStringSound(s: Bytes, p: nat, t: Table)
    requires TableFits(t)
    ensures var r := ReadNewString(s, p, t);
            r.Parsed? ==> t <= r.table && TableFits(r.table) && Sound(r.value, r.table)
  {
    UtfFits(s, p, t);
  }

  lemma FieldDescSound(s: Bytes, p: nat, t: Table)
    requires TableFits(t)
    ensures var r := ReadFieldDesc(s, p, t);
            r.Parsed? ==> t <= r.table && TableFits(r.table)
  {
    hide ReadUtf, ReadNewString, TableFits;
    var name := ReadUtf(s, p + 1, t);
    if p < |s| && name.Parsed? {
      NewStringSound(s, name.pos + 1, t);
    }
  }

  lemma {:induction false} FieldDescsSound(s: Bytes, p: nat, t: Table, count: nat)
    requires TableFits(t)
    ensures var r := ReadFieldDescs(s, p, t, count);
            r.Parsed? ==> t <= r.table && TableFits(r.table)
    decreases count
  {
    hide ReadFieldDesc, TableFits;
    if count > 0 {
      FieldDescSound(s, p, t);
      var r := ReadFieldDesc(s, p, t);
      if r.Parsed? {
        FieldDescsSound(s, r.pos, r.table, count - 1);
      }
    }
  }

  /** The table keeps its entries: the one that is completed is that of the new class itself. */
  lemma ClassDescSound(s: Bytes, p: nat, t: Table)
    requires TableFits(t)
    ensures var r := ReadClassDesc(s, p, t);
            r.Parsed? ==> t <= r.table && TableFits(r.table)
  {
    hide ReadUtf, ReadFieldDescs, Unsigned, ReadClassDescInfo;
    if p < |s| && s[p] == TC_CLASSDESC && ReadClassDesc(s, p, t).Parsed? {
      var name := ReadUtf(s, p + 1, t);
      var uid := ReadBytes(s, name.pos, t, 8);
      ClassInfoSound(s, uid.pos, t, name.value, uid.value);
    }
  }

  lemma ClassInfoSound(s: Bytes, p: nat, t: Table, name: Bytes, uid: Bytes)
    requires TableFits(t)
    ensures var r := ReadClassDescInfo(s, p, t + [ClassEntry(ClassDesc(name, uid, 0, []))], name, uid, |t|);
            r.Parsed? ==> t <= r.table && TableFits(r.table)
  {
    hide ReadFieldDescs, Unsigned;
    if p + 3 <= |s| {
      var u := t + [ClassEntry(ClassDesc(name, uid, 0, []))];
      FieldDescsSound(s, p + 3, u, Unsigned(s[p + 1..p + 3]));
    }
  }

  ghost predicate ValueSound(r: Parsed<Value>, t: Table) {
    r.Parsed? ==> t <= r.table && TableFits(r.table) && Sound(r.value, r.table)
  }

  ghost predicate ValuesSound(r: Parsed<seq<Value>>, t: Table) {
    r.Parsed? ==> t <= r.table && TableFits(r.table) && AllSound(r.value, r.table)
  }

  /** The entry that the reference at p names, if there is one yet. */
  function Named(s: Bytes, p: nat, t: Table): Option<Entry> {
    if p + 5 <= |s| && BASE_WIRE_HANDLE <= Unsigned(s[p + 1..p + 5]) < BASE_WIRE_HANDLE + |t| then
      Some(t[Unsigned(s[p + 1..p + 5]) - BASE_WIRE_HANDLE])
    else
      None
  }

  /** A reference is accepted if and only if its handle was assigned before that point of the stream, and
      to what its place asks for: a class where a class is read, a string where a type is read, a string
      or an object where a value is read. */
  lemma ReferencesByPlace(s: Bytes, p: nat, t: Table)
    requires p < |s| && s[p] == TC_REFERENCE
    ensures ReadClassDesc(s, p, t).Parsed? <==> Named(s, p, t).Some? && Named(s, p, t).value.ClassEntry?
    ensures ReadTypeName(s, p, t).Parsed? <==> Named(s, p, t).Some? && Named(s, p, t).value.StringEntry?
    ensures ReadObject(s, p, t).Parsed? <==>
            Named(s, p, t).Some? && (Named(s, p, t).value.StringEntry? || Named(s, p, t).value.ObjectEntry?)
  {
    hide Unsigned;
  }

  /** Every value the reader returns is sound. */
  lemma {:induction false} ObjectSound(s: Bytes, p: nat, t: Table)
    requires TableFits(t)
    ensures ValueSound(ReadObject(s, p, t), t)
    decreases |s| - p, 0
  {
    hide ReadNewString, ReadNewObject, ReadHandle;
    if p < |s| {
      NewStringSound(s, p + 1, t);
      if s[p] == TC_OBJECT {
        NewObjectSound(s, p + 1, t);
      }
    }
  }

  lemma {:induction false} NewObjectSound(s: Bytes, p: nat, t: Table)
    requires TableFits(t)
    ensures ValueSound(ReadNewObject(s, p, t), t)
    decreases |s| - p, 0
  {
    hide ReadClassDesc, ReadValues, ReadContents;
    ClassDescSound(s, p, t);
    var desc := ReadClassDesc(s, p, t);
    if desc.Parsed? && |desc.table| < MAX_HANDLES {
      var t2 := desc.table + [ObjectEntry(desc.value.name)];
      ValuesAreSound(s, desc.pos, t2, desc.value.fields, 0);
      var fields := ReadValues(s, desc.pos, t2, desc.value.fields, 0);
      if fields.Parsed? {
        ContentsSound(s, fields.pos, fields.table);
        var contents := ReadContents(s, fields.pos, fields.table);
        if contents.Parsed? {
          AllSoundLonger(fields.value, fields.table, contents.table);
        }
      }
    }
  }

  lemma {:induction false} ValuesAreSound(s: Bytes, p: nat, t: Table, fields: seq<FieldDesc>, k: nat)
    requires TableFits(t) && k <= |fields|
    ensures ValuesSound(ReadValues(s, p, t, fields, k), t)
    decreases |s| - p, 2, |fields| - k
  {
    hide ReadObject, Sound, TableFits, Signed;
    if k < |fields| {
      FieldValueSound(s, p, t, fields[k].code);
      var r := ReadValue(s, p, t, fields[k].code);
      if r.Parsed? {
        ValuesAreSound(s, r.pos, r.table, fields, k + 1);
        var rest := ReadValues(s, r.pos, r.table, fields, k + 1);
        if rest.Parsed? {
          SoundLonger(r.value, r.table, rest.table);
        }
      }
    }
  }

  lemma {:induction false} FieldValueSound(s: Bytes, p: nat, t: Table, code: byte)
    requires TableFits(t)
    ensures ValueSound(ReadValue(s, p, t, code), t)
    decreases |s| - p, 1
  {
    hide ReadObject, TableFits, Signed;
    ObjectSound(s, p, t);
  }

  lemma {:induction false} ContentsSound(s: Bytes, p: nat, t: Table)
    requires TableFits(t)
    ensures ValuesSound(ReadContents(s, p, t), t)
    decreases |s| - p, 2
  {
    hide ReadObject, TableFits;
    if p < |s| && s[p] == TC_BLOCKDATA {
      var size := ReadBytes(s, p + 1, t, 1);
      if size.Parsed? {
        ContentsSound(s, p + 2 + size.value[0], t);
      }
    } else if p < |s| && s[p] != TC_ENDBLOCKDATA {
      ObjectSound(s, p, t);
      var r := ReadObject(s, p, t);
      if r.Parsed? {
        ContentsSound(s, r.pos, r.table);
        var rest := ReadContents(s, r.pos, r.table);
        if rest.Parsed? {
          SoundLonger(r.value, r.table, rest.table);
        }
      }
    }
  }

  /** So the strings of a tree that comes out of the reader all fit. */
  lemma {:induction false} NodeFits(v: Value, parent: Option<nat>, t: Table)
    requires Sound(v, t) && NodeOf(v, parent).Some?
    ensures StringsFit(NodeOf(v, parent).value)
    decreases v
  {
    if v.desc == LEAF_DESC {
      LeafFits(v, parent, t);
    } else {
      var f := v.fields;
      assert f[4] in f && f[5] in f;
      assert Sound(f[4], t) && Sound(f[5], t);
      NodesFit(f[4].annotation[1..], v.handle, t);
    }
  }

  lemma LeafFits(v: Value, parent: Option<nat>, t: Table)
    requires Sound(v, t) && v.ObjectValue? && LeafOf(v.fields, parent).Some?
    ensures StringsFit(LeafOf(v.fields, parent).value)
  {
    assert v.fields[5] in v.fields && v.fields[7] in v.fields;
  }

  lemma {:induction false} NodesFit(vs: seq<Value>, parent: nat, t: Table)
    requires AllSound(vs, t) && NodesOf(vs, parent).Some?
    ensures forall n | n in NodesOf(vs, parent).value :: StringsFit(n)
    decreases vs
  {
    if vs != [] {
      NodeFits(vs[0], Some(parent), t);
      NodesFit(vs[1..], parent, t);
    }
  }
}
