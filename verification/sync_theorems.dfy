/** The main results on the writer: what it sends is what a reader gets back, exactly when the
    tree starts with a directory, every string fits its 16-bit length and the handles suffice. */
module SyncTheorems {
  import opened Bytes
  import opened JavaStreamReader
  import opened SyncTree
  import opened SyncWire
  import opened SyncReadBack
  import opened SyncDefinitions
  import opened SyncNodes
  import opened SyncDirectories
  import opened SyncCounting
  import opened ReaderSoundness

  /** What is sent for a tree after the stream header. The caller closes the root with TC_NULL. */
  function Body(share: bool, n: Node): Bytes {
    Emit(share, n, 0, FRESH).bytes + [TC_NULL]
  }

  lemma ReadsBody(share: bool, n: Node)
    requires n.Directory? && StringsFit(n)
    ensures var e := Emit(share, n, 0, FRESH);
            NodeRead(ReadObject(Body(share, n), 0, []), share, e.st, [], |Body(share, n)|, n, None)
  {
    hide Has, EmitDirectory, NodeOf, ReadObject, StringsFit, Ascii;
    var bytes := EmitDirectory(share, n, 0, FRESH).bytes;
    HasBoth(bytes, [TC_NULL]);
    ReadsDirectory(share, n, 0, FRESH, bytes + [TC_NULL], 0, []);
  }

  lemma HasBoth(a: Bytes, b: Bytes)
    ensures Has(a + b, 0, a) && Has(a + b, |a|, b)
  {}

  /** A tree that comes out of the receiver has only strings that fit, whatever the bytes were. */
  lemma DecodedStringsFit(body: Bytes)
    ensures Decode(body).Some? ==> StringsFit(Decode(body).value)
  {
    hide ReadObject, NodeOf, StringsFit;
    ObjectSound(body, 0, []);
    var r := ReadObject(body, 0, []);
    if r.Parsed? && NodeOf(r.value, None).Some? {
      NodeFits(r.value, None, r.table);
    }
  }

  /** A class whose field refers to a handle below the base is refused. */
  lemma {:induction false} BadFieldRefused(s: Bytes, p: nat, t: Table, fields: seq<FieldWire>, k: nat, bad: nat)
    requires k <= bad < |fields| && |t| <= MAX_HANDLES
    requires forall i | k <= i < bad :: fields[i].PrimitiveField? && Readable(fields[i], t)
    requires fields[bad].SharedTypeField? && fields[bad].handle == 0 && StringFits(fields[bad].name)
    requires Has(s, p, Join(FieldParts(fields), k))
    ensures ReadFieldDescs(s, p, t, |fields| - k).Refused?
    decreases bad - k
  {
    hide Has, Readable, ReadFieldDesc, Join, FieldWire.Encoded, FieldWire.Meaning, FieldWire.Assigned;
    HasPart(s, p, FieldParts(fields), k);
    if k < bad {
      ReadsPrimitive(s, p, t, fields[k]);
      BadFieldRefused(s, p + |fields[k].Encoded()|, t, fields, k + 1, bad);
    } else {
      BadField(s, p, t, fields[k]);
    }
  }

  lemma ReadsPrimitive(s: Bytes, p: nat, t: Table, f: FieldWire)
    requires f.PrimitiveField? && Readable(f, t) && |t| <= MAX_HANDLES && Has(s, p, f.Encoded())
    ensures ReadFieldDesc(s, p, t) == Parsed(f.Meaning(), p + |f.Encoded()|, t)
  {
    hide Has, ReadFieldDesc, Readable, Utf;
    ReadsField(s, p, t, f);
    assert t + [] == t;
  }

  lemma BadField(s: Bytes, p: nat, t: Table, f: FieldWire)
    requires f.SharedTypeField? && f.handle == 0 && StringFits(f.name) && Has(s, p, f.Encoded())
    ensures ReadFieldDesc(s, p, t).Refused?
  {
    hide Has, ReadFieldDesc, Utf, ReferenceBytes;
    NullHandleRefused(s, p, t, f.name);
  }

  lemma NullHandleRefused(s: Bytes, p: nat, t: Table, name: Bytes)
    requires StringFits(name) && Has(s, p, ([FIELD_OBJECT] + Utf(name)) + ReferenceBytes(0))
    ensures ReadFieldDesc(s, p, t).Refused?
  {
    Pow256Values();
    UnsignedBigEndian(0, 4);
    hide Has, Utf, BigEndian, Unsigned, ReadUtf;
    var q := p + 1 + |Utf(name)|;
    HasSplit(s, p, [FIELD_OBJECT] + Utf(name), ReferenceBytes(0));
    ReadsFieldHead(s, p, t, FIELD_OBJECT, name);
    HasSplit(s, q, [TC_REFERENCE], BigEndian(0, 4));
    HasByte(s, q, TC_REFERENCE);
    HandleBytes(s, q + 1, BigEndian(0, 4));
  }

  lemma HandleBytes(s: Bytes, p: nat, b: Bytes)
    requires Has(s, p, b)
    ensures p + |b| <= |s| && s[p..p + |b|] == b
  {}

  /** A leaf at the root has no type strings to refer to, so its class is refused. */
  lemma LeafAtRootRefused(n: Node)
    requires n.Leaf?
    ensures ReadObject(Body(true, n), 0, []).Refused?
  {
    var fields := LeafFields(true, FRESH.defs);
    var parts := ClassParts(LEAF_CLASS, LEAF_UID, SC_SERIALIZABLE, fields);
    LeafRootStart(n);
    hide Body, Has, Join, Ascii, Utf, BigEndian, FieldParts, ReadObject, LeafFields;
    LeafClassRefused(Body(true, n), parts, fields);
  }

  lemma LeafClassRefused(s: Bytes, parts: seq<Bytes>, fields: seq<FieldWire>)
    requires fields == LeafFields(true, FRESH.defs) && |fields| == 8
    requires |parts| == 5 && parts[0] == [TC_OBJECT] && parts[1] == [TC_CLASSDESC] + Utf(LEAF_CLASS)
    requires parts[2] == LEAF_UID + [SC_SERIALIZABLE] + BigEndian(|fields|, 2)
    requires parts[3] == Join(FieldParts(fields), 0)
    requires Has(s, 0, Join(parts, 0))
    ensures ReadObject(s, 0, []).Refused?
  {
    hide Has, Join, LeafFields, Ascii, ReadClassDesc, Utf, BigEndian, FieldParts, ReadClassDescInfo, ReadUtf;
    HasPart(s, 0, parts, 0);
    HasByte(s, 0, TC_OBJECT);
    FivePieces(s, 1, parts);
    var q := 1 + |parts[1]|;
    HasUidAndInfo(s, q, LEAF_UID, SC_SERIALIZABLE, |fields|);
    ReadsFieldHead(s, 1, [], TC_CLASSDESC, LEAF_CLASS);
    InfoFollows(s, q, parts);
    LeafInfoRefused(s, q + 8);
    ClassRefused(s, q);
  }

  lemma ClassRefused(s: Bytes, q: nat)
    requires 1 < |s| && s[0] == TC_OBJECT && s[1] == TC_CLASSDESC
    requires ReadUtf(s, 2, []) == Parsed(LEAF_CLASS, q, []) && q + 8 <= |s| && s[q..q + 8] == LEAF_UID
    requires ReadClassDescInfo(s, q + 8, [ClassEntry(ClassDesc(LEAF_CLASS, LEAF_UID, 0, []))],
                               LEAF_CLASS, LEAF_UID, 0).Refused?
    ensures ReadObject(s, 0, []).Refused?
  {
    hide ReadUtf, ReadClassDescInfo, Ascii;
    var e := ClassEntry(ClassDesc(LEAF_CLASS, LEAF_UID, 0, []));
    assert [] + [e] == [e];
    assert ReadNewClassDesc(s, 2, []).Refused?;
    assert ReadClassDesc(s, 1, []).Refused?;
    assert ReadNewObject(s, 1, []).Refused?;
  }

  lemma InfoFollows(s: Bytes, q: nat, parts: seq<Bytes>)
    requires |parts| == 5 && |parts[2]| == 11 && Has(s, q + |parts[2]|, parts[3])
    ensures Has(s, q + 8 + 3, parts[3])
  {}

  lemma LeafRootStart(n: Node)
    requires n.Leaf?
    ensures Has(Body(true, n), 0,
                Join(ClassParts(LEAF_CLASS, LEAF_UID, SC_SERIALIZABLE, LeafFields(true, FRESH.defs)), 0))
  {
    hide Join, ClassParts, LeafFields, Ascii, LeafNumbers, LeafObjects;
    var s := Body(true, n);
    var parts := LeafParts(EmitLeafDefinition(true, FRESH).bytes, n, 0);
    assert Has(s, 0, Join(parts, 0));
    HasPart(s, 0, parts, 0);
  }

  /** The first five fields of a leaf are primitive; the sixth refers to handle 0 in a fresh context. */
  lemma FreshLeafFields(t: Table)
    ensures var fields := LeafFields(true, FRESH.defs);
            && |fields| == 8
            && (forall i | 0 <= i < 5 :: fields[i].PrimitiveField? && Readable(fields[i], t))
            && fields[5].SharedTypeField? && fields[5].handle == 0 && StringFits(fields[5].name)
  {}

  lemma FieldsRefuseInfo(s: Bytes, p: nat, t: Table, name: Bytes, uid: Bytes, count: nat)
    requires p + 3 <= |s| && Unsigned(s[p + 1..p + 3]) == count && ReadFieldDescs(s, p + 3, t, count).Refused?
    ensures ReadClassDescInfo(s, p, t, name, uid, 0).Refused?
  {
    hide Unsigned, ReadFieldDescs;
  }

  lemma BadInfoRefused(s: Bytes, p: nat, t: Table, name: Bytes, uid: Bytes, flags: byte,
                       fields: seq<FieldWire>, bad: nat)
    requires bad < |fields| < 0x1_0000 && |t| <= MAX_HANDLES
    requires forall i | 0 <= i < bad :: fields[i].PrimitiveField? && Readable(fields[i], t)
    requires fields[bad].SharedTypeField? && fields[bad].handle == 0 && StringFits(fields[bad].name)
    requires Has(s, p, [flags] + BigEndian(|fields|, 2)) && Has(s, p + 3, Join(FieldParts(fields), 0))
    ensures ReadClassDescInfo(s, p, t, name, uid, 0).Refused?
  {
    hide *;
    CountAndFlags(s, p, flags, |fields|);
    BadFieldRefused(s, p + 3, t, fields, 0, bad);
    FieldsRefuseInfo(s, p, t, name, uid, |fields|);
  }

  lemma LeafInfoRefused(s: Bytes, p: nat)
    requires Has(s, p, [SC_SERIALIZABLE] + BigEndian(8, 2))
    requires Has(s, p + 3, Join(FieldParts(LeafFields(true, FRESH.defs)), 0))
    ensures ReadClassDescInfo(s, p, [ClassEntry(ClassDesc(LEAF_CLASS, LEAF_UID, 0, []))],
                               LEAF_CLASS, LEAF_UID, 0).Refused?
  {
    var t := [ClassEntry(ClassDesc(LEAF_CLASS, LEAF_UID, 0, []))];
    FreshLeafFields(t);
    assert |LeafFields(true, FRESH.defs)| == 8 && BigEndian(|LeafFields(true, FRESH.defs)|, 2) == BigEndian(8, 2);
    hide *;
    BadInfoRefused(s, p, t, LEAF_CLASS, LEAF_UID, SC_SERIALIZABLE, LeafFields(true, FRESH.defs), 5);
  }

  /** The round trip, and exactly when it holds. */
  lemma RoundTrip(n: Node)
    ensures Decode(Body(true, n)) == Some(n) <==>
            n.Directory? && StringsFit(n) && HandleCount(n) <= 0x8000_0000
  {
    DecodedStringsFit(Body(true, n));
    if n.Leaf? {
      LeafAtRootRefused(n);
    } else if StringsFit(n) {
      ReadsBody(true, n);
      FreshCount(n, 0);
    }
  }

  /** When the handles run out the receiver refuses the stream; it never gets another tree. */
  lemma NeverAnotherTree(n: Node)
    requires StringsFit(n)
    ensures Decode(Body(true, n)) in {Some(n), None}
  {
    if n.Leaf? {
      LeafAtRootRefused(n);
    } else {
      ReadsBody(true, n);
    }
  }

  /** Sharing definitions keeps the meaning: whatever tree the simple writer gets across, the
      sharing writer gets across too. */
  lemma SharingKeepsMeaning(n: Node)
    requires n.Directory? && Decode(Body(false, n)) == Some(n)
    ensures Decode(Body(true, n)) == Decode(Body(false, n))
  {
    DecodedStringsFit(Body(false, n));
    ReadsBody(false, n);
    FreshCount(n, 0);
    RoundTrip(n);
  }

  /** The simple writer gets across every tree with few enough nodes, so the law above says something. */
  lemma SimpleRoundTrip(n: Node)
    requires n.Directory?
    ensures Decode(Body(false, n)) == Some(n) <==>
            StringsFit(n) && 8 * Directories(n) + 7 * Leaves(n) <= 0x8000_0000
  {
    DecodedStringsFit(Body(false, n));
    if StringsFit(n) {
      ReadsBody(false, n);
      FreshCount(n, 0);
    }
  }

  /** No class name stands twice for a class in the handle table of a stream. */
  lemma ClassesAtMostOnce(n: Node)
    requires n.Directory? && StringsFit(n) && HandleCount(n) <= MAX_HANDLES
    ensures ReadObject(Body(true, n), 0, []).Parsed?
    ensures var t := ReadObject(Body(true, n), 0, []).table;
            forall i, j | 0 <= i < j < |t| && t[i].ClassEntry? && t[j].ClassEntry? :: t[i].desc.name != t[j].desc.name
  {
    ReadsBody(true, n);
    FreshCount(n, 0);
    var d, t := Emit(true, n, 0, FRESH).st.defs, ReadObject(Body(true, n), 0, []).table;
    forall i, j | 0 <= i < j < |t| && t[i].ClassEntry? && t[j].ClassEntry?
      ensures t[i].desc.name != t[j].desc.name
    {
      OneClassEach(d, t, i, j);
    }
  }

  lemma OneClassEach(d: Definitions, t: Table, i: nat, j: nat)
    requires DefinitionsAgree(d, t)
    requires i < j < |t| && t[i].ClassEntry? && t[j].ClassEntry?
    ensures t[i].desc.name != t[j].desc.name
  {
    ClassesDiffer();
    assert BASE_WIRE_HANDLE + i in {d.treeDirectory, d.arrayList, d.treeLeaf};
    assert BASE_WIRE_HANDLE + j in {d.treeDirectory, d.arrayList, d.treeLeaf};
    hide Ascii, ClassesKnown;
  }

  /** The receiver has assigned exactly as many handles as the writer has counted. */
  lemma HandlesAgree(n: Node)
    requires n.Directory? && StringsFit(n) && HandleCount(n) <= MAX_HANDLES
    ensures ReadObject(Body(true, n), 0, []).Parsed?
    ensures |ReadObject(Body(true, n), 0, []).table| == HandleCount(n)
    ensures |Body(true, n)| == StreamLength(n)
  {
    ReadsBody(true, n);
    FreshCount(n, 0);
    FreshLength(n);
  }

  const STREAM_MAGIC: bv32 := 0xACED_0000
  const STREAM_VERSION: bv32 := 5
  /** The source joins magic and version with a bitwise and. */
  const STREAM_HEADER: bv32 := STREAM_MAGIC & STREAM_VERSION

  /** A stream as it is sent, header first. */
  function Stream(header: nat, n: Node): Bytes {
    BigEndian(header, 4) + Body(true, n)
  }

  /** stream: magic version contents. */
  function DecodeStream(s: Bytes): Option<Node> {
    if |s| >= 4 && s[..4] == [0xAC, 0xED, 0x00, 0x05] then Decode(s[4..]) else None
  }

  /** With the header the source sends no receiver accepts a stream; with magic and version side by
      side every stream gets across that the round trip allows. */
  lemma HeaderDecides(header: nat, n: Node)
    requires header < 0x1_0000_0000
    ensures DecodeStream(Stream(header, n)) == Some(n) <==>
            header == 0xACED_0005 && n.Directory? && StringsFit(n) && HandleCount(n) <= 0x8000_0000
    ensures STREAM_HEADER as nat == 0
  {
    RoundTrip(n);
    Pow256Values();
    UnsignedBigEndian(header, 4);
    hide Body, Decode, HandleCount, StringsFit;
    var s := Stream(header, n);
    assert s[..4] == BigEndian(header, 4) && s[4..] == Body(true, n);
    HeaderBytes();
  }

  lemma ZeroHeader()
    ensures BigEndian(0, 4) == [0, 0, 0, 0]
  {}

  lemma HeaderBytes()
    ensures BigEndian(0xACED_0005, 4) == [0xAC, 0xED, 0x00, 0x05]
    ensures Unsigned([0xAC, 0xED, 0x00, 0x05]) == 0xACED_0005
  {
    Pow256Values();
    UnsignedBigEndian(0xACED_0005, 4);
  }
}
