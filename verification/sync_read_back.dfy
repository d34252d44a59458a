/** What the reader makes of the pieces the writer sends. Each lemma says both what is read while
    the handle table has room and that the reader refuses once it has none. */
module SyncReadBack {
  import opened Bytes
  import opened JavaStreamReader
  import opened SyncTree
  import opened SyncWire

  lemma ReadsUtf(s: Bytes, p: nat, t: Table, b: Bytes)
    requires StringFits(b) && Has(s, p, Utf(b))
    ensures ReadUtf(s, p, t) == Parsed(b, p + |Utf(b)|, t)
  {
    HasSplit(s, p, BigEndian(|b|, 2), b);
    Pow256Values();
    UnsignedBigEndian(|b|, 2);
  }

  lemma ReadsNewString(s: Bytes, p: nat, t: Table, b: Bytes)
    requires StringFits(b) && Has(s, p, Utf(b))
    ensures ReadNewString(s, p, t)
         == if |t| < MAX_HANDLES then Parsed(StringValue(|t|, b), p + |Utf(b)|, t + [StringEntry(b)]) else Refused
  {
    ReadsUtf(s, p, t, b);
  }

  lemma ReadsHandle(s: Bytes, p: nat, t: Table, h: nat)
    requires BASE_WIRE_HANDLE <= h < BASE_WIRE_HANDLE + |t| && |t| <= MAX_HANDLES
    requires Has(s, p, BigEndian(h, 4))
    ensures ReadHandle(s, p, t) == Parsed(h - BASE_WIRE_HANDLE, p + 4, t)
  {
    Pow256Values();
    UnsignedBigEndian(h, 4);
  }

  /** A shared type must have been read before. */
  ghost predicate Readable(f: FieldWire, t: Table) {
    && StringFits(f.name)
    && (f.PrimitiveField? ==> f.code in {FIELD_INT, FIELD_LONG, FIELD_BOOLEAN})
    && (f.NewTypeField? ==> StringFits(f.typeName))
    && (f.SharedTypeField? ==> Denotes(t, f.handle, StringEntry(f.typeName)))
  }

  /** Handle h of the wire stands for e in the table, at its first occurrence. */
  ghost predicate Denotes(t: Table, h: nat, e: Entry) {
    && BASE_WIRE_HANDLE <= h < BASE_WIRE_HANDLE + |t|
    && t[h - BASE_WIRE_HANDLE] == e
    && e !in t[..h - BASE_WIRE_HANDLE]
  }

  lemma DenotesLonger(t: Table, u: Table, h: nat, e: Entry)
    requires Denotes(t, h, e) && t <= u
    ensures Denotes(u, h, e)
  {
    assert u[..h - BASE_WIRE_HANDLE] == t[..h - BASE_WIRE_HANDLE];
  }

  /** The code and the name every field starts with. */
  lemma ReadsFieldHead(s: Bytes, p: nat, t: Table, code: byte, name: Bytes)
    requires StringFits(name) && Has(s, p, [code] + Utf(name))
    ensures p < |s| && s[p] == code && ReadUtf(s, p + 1, t) == Parsed(name, p + 1 + |Utf(name)|, t)
  {
    HasSplit(s, p, [code], Utf(name));
    HasByte(s, p, code);
    ReadsUtf(s, p + 1, t, name);
  }

  lemma ReadsNewType(s: Bytes, p: nat, t: Table, typeName: Bytes)
    requires StringFits(typeName) && Has(s, p, StringBytes(typeName))
    ensures ReadTypeName(s, p, t)
         == if |t| < MAX_HANDLES then Parsed(typeName, p + |StringBytes(typeName)|, t + [StringEntry(typeName)])
            else Refused
  {
    HasSplit(s, p, [TC_STRING], Utf(typeName));
    HasByte(s, p, TC_STRING);
    ReadsNewString(s, p + 1, t, typeName);
  }

  /** A reference to a handle of the table, as any reader of references finds it. */
  lemma ReadsReference(s: Bytes, p: nat, t: Table, h: nat)
    requires BASE_WIRE_HANDLE <= h < BASE_WIRE_HANDLE + |t| && |t| <= MAX_HANDLES
    requires Has(s, p, ReferenceBytes(h))
    ensures p < |s| && s[p] == TC_REFERENCE
    ensures ReadHandle(s, p + 1, t) == Parsed(h - BASE_WIRE_HANDLE, p + |ReferenceBytes(h)|, t)
  {
    HasSplit(s, p, [TC_REFERENCE], BigEndian(h, 4));
    HasByte(s, p, TC_REFERENCE);
    ReadsHandle(s, p + 1, t, h);
  }

  lemma ReadsPrimitiveField(s: Bytes, p: nat, t: Table, code: byte, name: Bytes)
    requires StringFits(name) && code in {FIELD_INT, FIELD_LONG, FIELD_BOOLEAN} && Has(s, p, [code] + Utf(name))
    ensures ReadFieldDesc(s, p, t) == Parsed(FieldDesc(code, name, []), p + 1 + |Utf(name)|, t)
  {
    hide Has, Utf, ReadUtf, ReadTypeName;
    ReadsFieldHead(s, p, t, code, name);
  }

  lemma ReadsObjectFieldDesc(s: Bytes, p: nat, t: Table, name: Bytes, typeBytes: Bytes)
    requires StringFits(name) && Has(s, p, ([FIELD_OBJECT] + Utf(name)) + typeBytes)
    ensures var q := p + 1 + |Utf(name)|;
            && Has(s, q, typeBytes)
            && ReadFieldDesc(s, p, t)
               == match ReadTypeName(s, q, t)
                  case Parsed(typeName, q1, u) => Parsed(FieldDesc(FIELD_OBJECT, name, typeName), q1, u)
                  case Refused => Refused
  {
    hide Has, Utf, ReadUtf, ReadTypeName;
    HasSplit(s, p, [FIELD_OBJECT] + Utf(name), typeBytes);
    ReadsFieldHead(s, p, t, FIELD_OBJECT, name);
  }

  lemma ReadsSharedType(s: Bytes, p: nat, t: Table, handle: nat, typeName: Bytes)
    requires Denotes(t, handle, StringEntry(typeName)) && |t| <= MAX_HANDLES && Has(s, p, ReferenceBytes(handle))
    ensures ReadTypeName(s, p, t) == Parsed(typeName, p + |ReferenceBytes(handle)|, t)
  {
    hide Has, ReferenceBytes, ReadHandle, ReadNewString;
    ReadsReference(s, p, t, handle);
  }

  lemma ReadsField(s: Bytes, p: nat, t: Table, f: FieldWire)
    requires Readable(f, t) && |t| <= MAX_HANDLES && Has(s, p, f.Encoded())
    ensures ReadFieldDesc(s, p, t)
         == if |t| + |f.Assigned()| <= MAX_HANDLES
            then Parsed(f.Meaning(), p + |f.Encoded()|, t + f.Assigned()) else Refused
  {
    hide Has, Utf, ReadFieldDesc, ReadTypeName, Denotes, StringBytes, ReferenceBytes;
    assert t + [] == t;
    match f
    case PrimitiveField(code, name) => ReadsPrimitiveField(s, p, t, code, name);
    case NewTypeField(name, typeName) =>
      ReadsObjectFieldDesc(s, p, t, name, StringBytes(typeName));
      ReadsNewType(s, p + 1 + |Utf(name)|, t, typeName);
    case SharedTypeField(name, typeName, handle) =>
      ReadsObjectFieldDesc(s, p, t, name, ReferenceBytes(handle));
      ReadsSharedType(s, p + 1 + |Utf(name)|, t, handle, typeName);
  }

  lemma SharedTypeInTable(t: Table, f: FieldWire)
    requires Readable(f, t) && f.SharedTypeField?
    ensures BASE_WIRE_HANDLE <= f.handle < BASE_WIRE_HANDLE + |t|
    ensures t[f.handle - BASE_WIRE_HANDLE] == StringEntry(f.typeName)
  {}

  lemma ReadableLonger(f: FieldWire, t: Table, u: Table)
    requires Readable(f, t) && t <= u
    ensures Readable(f, u)
  {
    if f.SharedTypeField? {
      DenotesLonger(t, u, f.handle, StringEntry(f.typeName));
    }
  }

  lemma AllReadableLonger(fields: seq<FieldWire>, k: nat, t: Table, more: Table)
    requires forall i | k <= i < |fields| :: Readable(fields[i], t)
    ensures forall i | k <= i < |fields| :: Readable(fields[i], t + more)
  {
    hide Readable;
    forall i | k <= i < |fields| ensures Readable(fields[i], t + more) {
      ReadableLonger(fields[i], t, t + more);
    }
  }

  lemma {:induction false} ReadsFields(s: Bytes, p: nat, t: Table, fields: seq<FieldWire>, k: nat)
    requires k <= |fields| && |t| <= MAX_HANDLES
    requires forall i | k <= i < |fields| :: Readable(fields[i], t)
    requires Has(s, p, Join(FieldParts(fields), k))
    ensures ReadFieldDescs(s, p, t, |fields| - k)
         == if |t| + |FieldsAssigned(fields, k)| <= MAX_HANDLES
            then Parsed(FieldsMeaning(fields, k), p + |Join(FieldParts(fields), k)|, t + FieldsAssigned(fields, k))
            else Refused
    decreases |fields| - k
  {
    hide Has, Readable, ReadFieldDesc, FieldWire.Encoded, FieldWire.Meaning, FieldWire.Assigned;
    if k == |fields| {
      assert t + FieldsAssigned(fields, k) == t;
    } else {
      HasPart(s, p, FieldParts(fields), k);
      ReadsField(s, p, t, fields[k]);
      var u := t + fields[k].Assigned();
      if |u| <= MAX_HANDLES {
        AllReadableLonger(fields, k + 1, t, fields[k].Assigned());
        ReadsFields(s, p + |fields[k].Encoded()|, u, fields, k + 1);
        assert u + FieldsAssigned(fields, k + 1) == t + FieldsAssigned(fields, k);
      }
    }
  }

  ghost predicate ReadableClass(t: Table, name: Bytes, uid: Bytes, flags: byte, fields: seq<FieldWire>) {
    && StringFits(name) && |uid| == 8 && |fields| < 0x1_0000
    && flags in {SC_SERIALIZABLE, SC_SERIALIZABLE_WITH_WRITE_METHOD}
    && |t| <= MAX_HANDLES && forall i | 0 <= i < |fields| :: Readable(fields[i], t)
  }

  /** The handles a new class descriptor takes: the class itself, then the new types of its fields. */
  function ClassAssigned(desc: ClassDesc, fields: seq<FieldWire>): Table {
    [ClassEntry(desc)] + FieldsAssigned(fields, 0)
  }

  lemma ReadsFieldTable(s: Bytes, p: nat, t: Table, desc: ClassDesc, before: Entry, fields: seq<FieldWire>)
    requires ReadableClass(t, desc.name, desc.uid, desc.flags, fields) && |t| < MAX_HANDLES
    requires desc.fields == FieldsMeaning(fields, 0) && Has(s, p, Join(FieldParts(fields), 0))
    ensures ReadFieldDescs(s, p, t + [before], |fields|)
         == if |t| + |ClassAssigned(desc, fields)| <= MAX_HANDLES
            then Parsed(desc.fields, p + |Join(FieldParts(fields), 0)|, t + [before] + FieldsAssigned(fields, 0))
            else Refused
  {
    hide Has, Readable, Join, FieldParts, ReadFieldDescs, FieldsAssigned, FieldsMeaning;
    AllReadableLonger(fields, 0, t, [before]);
    ReadsFields(s, p, t + [before], fields, 0);
  }

  /** classDescInfo, once its fields have been read to `fields`. */
  lemma InfoFromFields(s: Bytes, p: nat, u: Table, name: Bytes, uid: Bytes, flags: byte, count: nat, h: nat,
                       fields: Parsed<seq<FieldDesc>>)
    requires p + 3 <= |s| && s[p..p + 1] == [flags] && Unsigned(s[p + 1..p + 3]) == count
    requires flags in {SC_SERIALIZABLE, SC_SERIALIZABLE_WITH_WRITE_METHOD}
    requires ReadFieldDescs(s, p + 3, u, count) == fields
    requires fields.Parsed? ==>
      fields.pos + 2 <= |s| && s[fields.pos] == TC_ENDBLOCKDATA && s[fields.pos + 1] == TC_NULL
    ensures ReadClassDescInfo(s, p, u, name, uid, h)
         == match fields
            case Parsed(descs, q, t) =>
              Parsed(ClassDesc(name, uid, flags, descs), q + 2,
                     Completed(t, h, ClassEntry(ClassDesc(name, uid, flags, descs))))
            case Refused => Refused
  {
    hide Unsigned, ReadFieldDescs, Completed;
    assert ReadBytes(s, p, u, 1) == Parsed([flags], p + 1, u);
    assert ReadBytes(s, p + 1, u, 2) == Parsed(s[p + 1..p + 3], p + 3, u);
  }

  /** classDescInfo. The entry of the class is completed last. */
  lemma ReadsClassInfo(s: Bytes, p: nat, t: Table, desc: ClassDesc, fields: seq<FieldWire>)
    requires ReadableClass(t, desc.name, desc.uid, desc.flags, fields) && |t| < MAX_HANDLES
    requires desc.fields == FieldsMeaning(fields, 0)
    requires Has(s, p, [desc.flags] + BigEndian(|fields|, 2))
    requires Has(s, p + 3, Join(FieldParts(fields), 0))
    requires Has(s, p + 3 + |Join(FieldParts(fields), 0)|, [TC_ENDBLOCKDATA, TC_NULL])
    ensures ReadClassDescInfo(s, p, t + [ClassEntry(ClassDesc(desc.name, desc.uid, 0, []))], desc.name, desc.uid, |t|)
         == if |t| + |ClassAssigned(desc, fields)| <= MAX_HANDLES
            then Parsed(desc, p + 3 + |Join(FieldParts(fields), 0)| + 2, t + ClassAssigned(desc, fields))
            else Refused
  {
    hide *;
    var before := ClassEntry(ClassDesc(desc.name, desc.uid, 0, []));
    ClassLimits(t, desc.name, desc.uid, desc.flags, fields);
    CountAndFlags(s, p, desc.flags, |fields|);
    EndOfClass(s, p + 3 + |Join(FieldParts(fields), 0)|);
    ReadsFieldTable(s, p + 3, t, desc, before, fields);
    CompletedClass(t, before, desc, fields);
    InfoFromFields(s, p, t + [before], desc.name, desc.uid, desc.flags, |fields|, |t|,
                   ReadFieldDescs(s, p + 3, t + [before], |fields|));
  }

  lemma ClassLimits(t: Table, name: Bytes, uid: Bytes, flags: byte, fields: seq<FieldWire>)
    requires ReadableClass(t, name, uid, flags, fields)
    ensures |fields| < 0x1_0000 && flags in {SC_SERIALIZABLE, SC_SERIALIZABLE_WITH_WRITE_METHOD}
  {}

  lemma CompletedClass(t: Table, before: Entry, desc: ClassDesc, fields: seq<FieldWire>)
    ensures Completed(t + [before] + FieldsAssigned(fields, 0), |t|, ClassEntry(desc))
         == t + ClassAssigned(desc, fields)
  {
    hide FieldsAssigned;
  }

  lemma CountAndFlags(s: Bytes, p: nat, flags: byte, count: nat)
    requires count < 0x1_0000 && Has(s, p, [flags] + BigEndian(count, 2))
    ensures p + 3 <= |s| && s[p..p + 1] == [flags] && Unsigned(s[p + 1..p + 3]) == count
  {
    HasSplit(s, p, [flags], BigEndian(count, 2));
    Pow256Values();
    UnsignedBigEndian(count, 2);
  }

  lemma EndOfClass(s: Bytes, p: nat)
    requires Has(s, p, [TC_ENDBLOCKDATA, TC_NULL])
    ensures p + 2 <= |s| && s[p] == TC_ENDBLOCKDATA && s[p + 1] == TC_NULL
  {
    assert s[p] == s[p..p + 2][0] && s[p + 1] == s[p..p + 2][1];
  }

  /** A new descriptor from its TC_CLASSDESC on. */
  lemma ReadsNewClass(s: Bytes, p: nat, t: Table, desc: ClassDesc, fields: seq<FieldWire>, parts: seq<Bytes>)
    requires ReadableClass(t, desc.name, desc.uid, desc.flags, fields)
    requires desc.fields == FieldsMeaning(fields, 0)
    requires |parts| == 5 && parts[1] == [TC_CLASSDESC] + Utf(desc.name)
    requires parts[2] == desc.uid + [desc.flags] + BigEndian(|fields|, 2)
    requires parts[3] == Join(FieldParts(fields), 0) && parts[4] == [TC_ENDBLOCKDATA, TC_NULL]
    requires Has(s, p, Join(parts, 1))
    ensures ReadClassDesc(s, p, t)
         == if |t| + |ClassAssigned(desc, fields)| <= MAX_HANDLES
            then Parsed(desc, p + |Join(parts, 1)|, t + ClassAssigned(desc, fields))
            else Refused
  {
    hide Has, Readable, Join, Utf, FieldParts, FieldsMeaning, FieldsAssigned, ReadUtf, ReadClassDescInfo, BigEndian;
    FivePieces(s, p, parts);
    var q := p + |parts[1]|;
    HasUidAndInfo(s, q, desc.uid, desc.flags, |fields|);
    ReadsFieldHead(s, p, t, TC_CLASSDESC, desc.name);
    assert ReadBytes(s, q, t, 8) == Parsed(desc.uid, q + 8, t);
    if |t| < MAX_HANDLES {
      ReadsClassInfo(s, q + 8, t, desc, fields);
    }
  }

  lemma HasUidAndInfo(s: Bytes, p: nat, uid: Bytes, flags: byte, count: nat)
    requires |uid| == 8 && Has(s, p, uid + [flags] + BigEndian(count, 2))
    ensures p + 8 <= |s| && s[p..p + 8] == uid && Has(s, p + 8, [flags] + BigEndian(count, 2))
  {
    hide BigEndian;
    assert uid + [flags] + BigEndian(count, 2) == uid + ([flags] + BigEndian(count, 2));
    HasSplit(s, p, uid, [flags] + BigEndian(count, 2));
  }

  lemma FivePieces(s: Bytes, p: nat, parts: seq<Bytes>)
    requires |parts| == 5 && Has(s, p, Join(parts, 1))
    ensures Has(s, p, parts[1]) && Has(s, p + |parts[1]|, parts[2])
    ensures Has(s, p + |parts[1]| + |parts[2]|, parts[3])
    ensures Has(s, p + |parts[1]| + |parts[2]| + |parts[3]|, parts[4])
    ensures |Join(parts, 1)| == |parts[1]| + |parts[2]| + |parts[3]| + |parts[4]|
  {
    hide Has, Join;
    HasPart(s, p, parts, 1);
    HasPart(s, p + |parts[1]|, parts, 2);
    HasPart(s, p + |parts[1]| + |parts[2]|, parts, 3);
    HasPart(s, p + |parts[1]| + |parts[2]| + |parts[3]|, parts, 4);
  }
}
