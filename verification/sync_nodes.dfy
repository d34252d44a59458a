/** Every node the writer sends is read back as that node, below its enclosing directory. */
module SyncNodes {
  import opened Bytes
  import opened JavaStreamReader
  import opened SyncTree
  import opened SyncWire
  import opened SyncReadBack
  import opened SyncDefinitions

  /** `vs` followed by what r read. */
  function Prefixed(vs: seq<Value>, r: Parsed<seq<Value>>): Parsed<seq<Value>> {
    match r
    case Parsed(rest, q, u) => Parsed(vs + rest, q, u)
    case Refused => Refused
  }

  lemma ReadsBool(s: Bytes, p: nat, t: Table, fields: seq<FieldDesc>, k: nat, b: bool)
    requires k < |fields| && fields[k].code == FIELD_BOOLEAN && Has(s, p, [BoolByte(b)])
    ensures ReadValues(s, p, t, fields, k) == Prefixed([BoolValue(b)], ReadValues(s, p + 1, t, fields, k + 1))
  {
    assert ReadValue(s, p, t, FIELD_BOOLEAN) == Parsed(BoolValue(b), p + 1, t);
  }

  lemma ReadsLong(s: Bytes, p: nat, t: Table, fields: seq<FieldDesc>, k: nat, n: int64)
    requires k < |fields| && fields[k].code == FIELD_LONG && Has(s, p, BigEndian(n, 8))
    ensures ReadValues(s, p, t, fields, k) == Prefixed([LongValue(n)], ReadValues(s, p + 8, t, fields, k + 1))
  {
    Pow256Values();
    SignedBigEndian(n, 8);
    hide BigEndian, Signed;
    assert ReadValue(s, p, t, FIELD_LONG) == Parsed(LongValue(n), p + 8, t);
  }

  /** A string value takes a handle. */
  lemma ReadsStringValue(s: Bytes, p: nat, t: Table, b: Bytes)
    requires StringFits(b) && Has(s, p, StringBytes(b))
    ensures ReadObject(s, p, t)
         == if |t| < MAX_HANDLES
            then Parsed(StringValue(|t|, b), p + |StringBytes(b)|, t + [StringEntry(b)]) else Refused
  {
    hide Has, Utf, ReadNewString;
    HasSplit(s, p, [TC_STRING], Utf(b));
    HasByte(s, p, TC_STRING);
    ReadsNewString(s, p + 1, t, b);
  }

  /** The object of wire handle h has its entry in the table. */
  ghost predicate ObjectInTable(t: Table, h: nat) {
    BASE_WIRE_HANDLE <= h < BASE_WIRE_HANDLE + |t| && t[h - BASE_WIRE_HANDLE].ObjectEntry?
  }

  lemma ReadsParentValue(s: Bytes, p: nat, t: Table, h: nat)
    requires ObjectInTable(t, h) && |t| <= MAX_HANDLES && Has(s, p, ReferenceBytes(h))
    ensures ReadObject(s, p, t) == Parsed(ReferenceValue(h - BASE_WIRE_HANDLE), p + |ReferenceBytes(h)|, t)
  {
    hide Has, ReferenceBytes, ReadHandle;
    ReadsReference(s, p, t, h);
  }

  /** An object field, and what follows it. */
  lemma ReadsObjectField(s: Bytes, p: nat, t: Table, fields: seq<FieldDesc>, k: nat)
    requires k < |fields| && fields[k].code == FIELD_OBJECT
    ensures ReadValues(s, p, t, fields, k)
         == match ReadObject(s, p, t)
            case Parsed(v, q, u) => Prefixed([v], ReadValues(s, q, u, fields, k + 1))
            case Refused => Refused
  {}

  /** What reading a node with the bookkeeping `st` after it comes to. */
  ghost predicate NodeRead(r: Parsed<Value>, share: bool, st: State, t: Table, q: nat, n: Node, parent: Option<nat>) {
    if st.count <= BASE_WIRE_HANDLE + MAX_HANDLES
    then r.Parsed? && r.pos == q && t <= r.table && Agree(share, st, r.table) && Means(r.value, parent, n)
    else r.Refused?
  }

  function LeafNumberValues(n: Node): seq<Value>
    requires n.Leaf?
  {
    [BoolValue(n.compressed), LongValue(n.compressedSize), BoolValue(n.deleted), LongValue(n.size),
     BoolValue(n.updated)]
  }

  lemma ReadsLeafNumbers(s: Bytes, p: nat, t: Table, n: Node)
    requires n.Leaf? && Has(s, p, Join(LeafNumbers(n), 0))
    ensures ReadValues(s, p, t, LEAF_DESC.fields, 0)
         == Prefixed(LeafNumberValues(n), ReadValues(s, p + |Join(LeafNumbers(n), 0)|, t, LEAF_DESC.fields, 5))
  {
    hide Has, BigEndian, ReadValues, Ascii, BoolByte, Prefixed, Join;
    var f := LEAF_DESC.fields;
    var parts := LeafNumbers(n);
    HasPart(s, p, parts, 0);
    ReadsBool(s, p, t, f, 0, n.compressed);
    HasPart(s, p + 1, parts, 1);
    ReadsLong(s, p + 1, t, f, 1, n.compressedSize);
    HasPart(s, p + 9, parts, 2);
    ReadsBool(s, p + 9, t, f, 2, n.deleted);
    HasPart(s, p + 10, parts, 3);
    ReadsLong(s, p + 10, t, f, 3, n.size);
    HasPart(s, p + 18, parts, 4);
    ReadsBool(s, p + 18, t, f, 4, n.updated);
    FivePrefixes(BoolValue(n.compressed), LongValue(n.compressedSize), BoolValue(n.deleted), LongValue(n.size),
                 BoolValue(n.updated), ReadValues(s, p + 19, t, f, 5));
  }

  lemma FivePrefixes(a: Value, b: Value, c: Value, d: Value, e: Value, r: Parsed<seq<Value>>)
    ensures Prefixed([a], Prefixed([b], Prefixed([c], Prefixed([d], Prefixed([e], r))))) == Prefixed([a, b, c, d, e], r)
  {
    if r.Parsed? {
      assert [a] + ([b] + ([c] + ([d] + ([e] + r.value)))) == [a, b, c, d, e] + r.value;
    }
  }

  /** The name, the parent and the hash of a leaf. */
  lemma ReadsLeafObjects(s: Bytes, p: nat, t: Table, n: Node, parent: nat)
    requires n.Leaf? && StringsFit(n) && ObjectInTable(t, parent) && |t| <= MAX_HANDLES
    requires Has(s, p, Join(LeafObjects(n, parent), 0))
    ensures ReadValues(s, p, t, LEAF_DESC.fields, 5)
         == if |t| + 2 <= MAX_HANDLES
            then Parsed([StringValue(|t|, n.name), ReferenceValue(parent - BASE_WIRE_HANDLE),
                         StringValue(|t| + 1, n.sha1)],
                        p + |Join(LeafObjects(n, parent), 0)|, t + [StringEntry(n.name), StringEntry(n.sha1)])
            else Refused
  {
    hide Has, StringBytes, ReferenceBytes, ReadObject, ReadValues, Ascii, Join;
    var f := LEAF_DESC.fields;
    var parts := LeafObjects(n, parent);
    HasPart(s, p, parts, 0);
    HasPart(s, p + |parts[0]|, parts, 1);
    HasPart(s, p + |parts[0]| + |parts[1]|, parts, 2);
    ReadsStringValue(s, p, t, n.name);
    ReadsObjectField(s, p, t, f, 5);
    if |t| < MAX_HANDLES {
      var t1 := t + [StringEntry(n.name)];
      ReadsParentValue(s, p + |parts[0]|, t1, parent);
      ReadsObjectField(s, p + |parts[0]|, t1, f, 6);
      ReadsStringValue(s, p + |parts[0]| + |parts[1]|, t1, n.sha1);
      ReadsObjectField(s, p + |parts[0]| + |parts[1]|, t1, f, 7);
      NoMoreFields(s, p + |Join(parts, 0)|, t1 + [StringEntry(n.sha1)], f);
      var u := t1 + [StringEntry(n.sha1)];
      assert u == t + [StringEntry(n.name), StringEntry(n.sha1)];
      ThreePrefixes(StringValue(|t|, n.name), ReferenceValue(parent - BASE_WIRE_HANDLE), StringValue(|t| + 1, n.sha1),
                    p + |Join(parts, 0)|, u);
    }
  }

  lemma ThreePrefixes(a: Value, b: Value, c: Value, q: nat, u: Table)
    ensures Prefixed([a], Prefixed([b], Prefixed([c], Parsed([], q, u)))) == Parsed([a, b, c], q, u)
  {
    assert [a] + ([b] + ([c] + [])) == [a, b, c];
  }

  lemma NoMoreFields(s: Bytes, p: nat, t: Table, fields: seq<FieldDesc>)
    ensures ReadValues(s, p, t, fields, |fields|) == Parsed([], p, t)
  {}

  lemma LeafIsMeant(n: Node, h: nat, h1: nat, h2: nat, parent: nat)
    requires n.Leaf?
    ensures var fields := LeafNumberValues(n)
                          + [StringValue(h1, n.name), ReferenceValue(parent), StringValue(h2, n.sha1)];
            Means(ObjectValue(h, LEAF_DESC, fields, []), Some(parent), n)
  {
    hide Ascii;
    var fields := LeafNumberValues(n) + [StringValue(h1, n.name), ReferenceValue(parent), StringValue(h2, n.sha1)];
    AllFresh(h, LEAF_DESC, fields);
  }

  lemma AllFresh(h: nat, desc: ClassDesc, fields: seq<Value>)
    requires forall f | f in fields :: !f.SharedString? && (f.ObjectValue? ==> Fresh(f))
    ensures Fresh(ObjectValue(h, desc, fields, []))
  {}

  /** An object that stands for a leaf. */
  lemma ReadsLeaf(share: bool, n: Node, parent: nat, st: State, s: Bytes, p: nat, t: Table)
    requires n.Leaf? && StringsFit(n)
    requires Agree(share, st, t) && (share ==> st.defs.treeDirectory != 0) && ObjectInTable(t, parent)
    requires Has(s, p, EmitLeaf(share, n, parent, st).bytes)
    ensures p < |s| && s[p] == TC_OBJECT
    ensures var e := EmitLeaf(share, n, parent, st);
            NodeRead(ReadObject(s, p, t), share, e.st, t, p + |e.bytes|, n, Some(parent - BASE_WIRE_HANDLE))
  {
    hide Has, Join, LeafNumbers, LeafObjects, EmitLeafDefinition, ReadClassDesc, ReadValues, DefinitionsAgree,
      StringsFit,
         Ascii, Means;
    var d := EmitLeafDefinition(share, st);
    var parts := LeafParts(d.bytes, n, parent);
    HasPart(s, p, parts, 0);
    var p1 := p + |parts[0]|;
    HasPart(s, p1, parts, 1);
    var p2 := p1 + |parts[1]|;
    HasPart(s, p2, parts, 2);
    ReadsLeafDefinition(share, st, s, p, t);
    LeafDefinitionKeeps(share, st);
    var r := ReadClassDesc(s, p + 1, t);
    if d.st.count < BASE_WIRE_HANDLE + MAX_HANDLES {
      var t2 := r.table + [ObjectEntry(LEAF_CLASS)];
      ReadsLeafNumbers(s, p1, t2, n);
      ReadsLeafObjects(s, p2, t2, n, parent);
      LeafAgrees(share, d.st, r.table, n);
      LeafIsMeant(n, |r.table|, |t2|, |t2| + 1, parent - BASE_WIRE_HANDLE);
    }
  }

  lemma LeafDefinitionKeeps(share: bool, st: State)
    ensures EmitLeafDefinition(share, st).st.defs.treeDirectory == st.defs.treeDirectory
  {}

  lemma LeafAgrees(share: bool, st: State, t: Table, n: Node)
    requires Agree(share, st, t) && n.Leaf? && (share ==> st.defs.treeDirectory != 0)
    ensures |t| + 3 <= MAX_HANDLES ==>
              Agree(share, st.(count := st.count + 3),
                    t + [ObjectEntry(LEAF_CLASS)] + [StringEntry(n.name), StringEntry(n.sha1)])
  {
    if |t| + 3 <= MAX_HANDLES {
      var more := [ObjectEntry(LEAF_CLASS), StringEntry(n.name), StringEntry(n.sha1)];
      assert t + [ObjectEntry(LEAF_CLASS)] + [StringEntry(n.name), StringEntry(n.sha1)] == t + more;
      hide DefinitionsAgree, Ascii;
      if share {
        DefinitionsAgreeMore(st.defs, t, more);
      }
    }
  }
}
