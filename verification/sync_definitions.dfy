/** The writer's definition table agrees with the reader's handle table, and every class
    definition the writer sends, in full or as a reference, is read as the class meant. */
module SyncDefinitions {
  import opened Bytes
  import opened JavaStreamReader
  import opened SyncTree
  import opened SyncWire
  import opened SyncReadBack

  /** The writer's bookkeeping describes the reader's table t. */
  ghost predicate Agree(share: bool, st: State, t: Table) {
    && st.count == BASE_WIRE_HANDLE + |t|
    && |t| <= MAX_HANDLES
    && (share ==> DefinitionsAgree(st.defs, t))
  }

  /** Every nonzero definition is the handle of the first occurrence of its item, and there is no
      class in the table but those three. */
  ghost predicate DefinitionsAgree(d: Definitions, t: Table) {
    && (d.treeDirectory == 0 ==> t == [] && d == Definitions(0, 0, 0, 0, 0, 0))
    && (d.treeDirectory != 0 ==> Denotes(t, d.treeDirectory, ClassEntry(DIRECTORY_DESC)))
    && (d.treeDirectory != 0 ==> Denotes(t, d.list, StringEntry(LIST_TYPE)))
    && (d.treeDirectory != 0 ==> Denotes(t, d.stringType, StringEntry(STRING_TYPE)))
    && (d.treeDirectory != 0 ==> Denotes(t, d.treeDirectoryMemberType, StringEntry(DIRECTORY_TYPE)))
    && (d.arrayList != 0 ==> Denotes(t, d.arrayList, ClassEntry(ARRAY_LIST_DESC)))
    && (d.treeLeaf != 0 ==> Denotes(t, d.treeLeaf, ClassEntry(LEAF_DESC)))
    && ClassesKnown(d, t)
  }

  ghost predicate ClassesKnown(d: Definitions, t: Table) {
    forall i | 0 <= i < |t| && t[i].ClassEntry? ::
      BASE_WIRE_HANDLE + i in {d.treeDirectory, d.arrayList, d.treeLeaf}
  }

  lemma AgreeMore(share: bool, st: State, t: Table, e: Entry)
    requires Agree(share, st, t) && |t| < MAX_HANDLES && !e.ClassEntry?
    requires share ==> st.defs.treeDirectory != 0
    ensures Agree(share, st.(count := st.count + 1), t + [e])
  {
    if share {
      DefinitionsAgreeMore(st.defs, t, [e]);
    }
  }

  lemma DefinitionsAgreeMore(d: Definitions, t: Table, more: Table)
    requires DefinitionsAgree(d, t) && d.treeDirectory != 0
    requires forall i | 0 <= i < |more| :: !more[i].ClassEntry?
    ensures DefinitionsAgree(d, t + more)
  {
    hide Denotes;
    DenotesLonger(t, t + more, d.treeDirectory, ClassEntry(DIRECTORY_DESC));
    DenotesLonger(t, t + more, d.list, StringEntry(LIST_TYPE));
    DenotesLonger(t, t + more, d.stringType, StringEntry(STRING_TYPE));
    DenotesLonger(t, t + more, d.treeDirectoryMemberType, StringEntry(DIRECTORY_TYPE));
    if d.arrayList != 0 { DenotesLonger(t, t + more, d.arrayList, ClassEntry(ARRAY_LIST_DESC)); }
    if d.treeLeaf != 0 { DenotesLonger(t, t + more, d.treeLeaf, ClassEntry(LEAF_DESC)); }
  }

  /** What reading a definition with the bookkeeping `st` after it comes to. */
  ghost predicate DefinitionRead(r: Parsed<ClassDesc>, share: bool, st: State, t: Table, q: nat, desc: ClassDesc) {
    if st.count <= BASE_WIRE_HANDLE + MAX_HANDLES
    then r.Parsed? && r.value == desc && r.pos == q && t <= r.table && Agree(share, st, r.table)
    else r.Refused?
  }

  lemma ReadsSharedDefinition(s: Bytes, p: nat, t: Table, h: nat, desc: ClassDesc)
    requires Denotes(t, h, ClassEntry(desc)) && |t| <= MAX_HANDLES
    requires Has(s, p, [TC_OBJECT] + ReferenceBytes(h))
    ensures p < |s| && s[p] == TC_OBJECT
    ensures ReadClassDesc(s, p + 1, t) == Parsed(desc, p + |[TC_OBJECT] + ReferenceBytes(h)|, t)
  {
    hide Has, ReadHandle, ReferenceBytes;
    HasSplit(s, p, [TC_OBJECT], ReferenceBytes(h));
    HasByte(s, p, TC_OBJECT);
    ReadsReference(s, p + 1, t, h);
  }

  /** A definition sent in full. */
  lemma ReadsFullDefinition(s: Bytes, p: nat, t: Table, desc: ClassDesc, fields: seq<FieldWire>)
    requires ReadableClass(t, desc.name, desc.uid, desc.flags, fields)
    requires desc.fields == FieldsMeaning(fields, 0)
    requires Has(s, p, Join(ClassParts(desc.name, desc.uid, desc.flags, fields), 0))
    ensures p < |s| && s[p] == TC_OBJECT
    ensures var q := p + |Join(ClassParts(desc.name, desc.uid, desc.flags, fields), 0)|;
            ReadClassDesc(s, p + 1, t)
            == if |t| + |ClassAssigned(desc, fields)| <= MAX_HANDLES
               then Parsed(desc, q, t + ClassAssigned(desc, fields))
               else Refused
  {
    hide Has, ReadClassDesc, ReadableClass, FieldsMeaning, ClassAssigned, FieldParts, Utf, BigEndian;
    var parts := ClassParts(desc.name, desc.uid, desc.flags, fields);
    HasPart(s, p, parts, 0);
    HasByte(s, p, TC_OBJECT);
    ReadsNewClass(s, p + 1, t, desc, fields, parts);
  }

  lemma {:induction false} MeaningAt(fields: seq<FieldWire>, k: nat)
    requires k <= |fields|
    ensures |FieldsMeaning(fields, k)| == |fields| - k
    ensures forall i | 0 <= i < |fields| - k :: FieldsMeaning(fields, k)[i] == fields[k + i].Meaning()
    decreases |fields| - k
  {
    hide FieldWire.Meaning;
    if k < |fields| {
      MeaningAt(fields, k + 1);
      forall i | 0 < i < |fields| - k ensures FieldsMeaning(fields, k)[i] == fields[k + i].Meaning() {
        assert FieldsMeaning(fields, k)[i] == FieldsMeaning(fields, k + 1)[i - 1];
      }
    }
  }

  lemma {:induction false} PrimitivesAssignNothing(fields: seq<FieldWire>, k: nat, n: nat)
    requires k <= n <= |fields| && forall i | k <= i < n :: !fields[i].NewTypeField?
    ensures FieldsAssigned(fields, k) == FieldsAssigned(fields, n)
    decreases n - k
  {
    if k < n {
      PrimitivesAssignNothing(fields, k + 1, n);
      assert [] + FieldsAssigned(fields, n) == FieldsAssigned(fields, n);
    }
  }

  lemma ThreeNewTypes(fields: seq<FieldWire>, k: nat)
    requires |fields| == k + 3 && forall i | k <= i < k + 3 :: fields[i].NewTypeField?
    ensures FieldsAssigned(fields, k)
         == [StringEntry(fields[k].typeName), StringEntry(fields[k + 1].typeName), StringEntry(fields[k + 2].typeName)]
  {
    assert FieldsAssigned(fields, k + 2) == [StringEntry(fields[k + 2].typeName)];
    assert FieldsAssigned(fields, k + 1)
        == [StringEntry(fields[k + 1].typeName), StringEntry(fields[k + 2].typeName)];
  }

  lemma DirectoryFieldsMeaning()
    ensures FieldsMeaning(DIRECTORY_FIELDS, 0) == DIRECTORY_DESC.fields
    ensures FieldsAssigned(DIRECTORY_FIELDS, 0)
         == [StringEntry(LIST_TYPE), StringEntry(STRING_TYPE), StringEntry(DIRECTORY_TYPE)]
  {
    hide Ascii, FieldsMeaning, FieldsAssigned;
    MeaningAt(DIRECTORY_FIELDS, 0);
    PrimitivesAssignNothing(DIRECTORY_FIELDS, 0, 4);
    ThreeNewTypes(DIRECTORY_FIELDS, 4);
  }

  lemma ArrayListFieldsMeaning()
    ensures FieldsMeaning(ARRAY_LIST_FIELDS, 0) == ARRAY_LIST_DESC.fields
    ensures FieldsAssigned(ARRAY_LIST_FIELDS, 0) == []
  {
    hide Ascii;
  }

  lemma LeafFieldsMeaning(share: bool, d: Definitions)
    ensures FieldsMeaning(LeafFields(share, d), 0) == LEAF_DESC.fields
    ensures FieldsAssigned(LeafFields(share, d), 0)
         == if share then [] else [StringEntry(STRING_TYPE), StringEntry(DIRECTORY_TYPE), StringEntry(STRING_TYPE)]
  {
    hide Ascii, FieldsMeaning, FieldsAssigned;
    MeaningAt(LeafFields(share, d), 0);
    if share {
      PrimitivesAssignNothing(LeafFields(share, d), 0, 8);
      NothingAssigned(LeafFields(share, d));
    } else {
      PrimitivesAssignNothing(LeafFields(share, d), 0, 5);
      ThreeNewTypes(LeafFields(share, d), 5);
    }
  }

  lemma NothingAssigned(fields: seq<FieldWire>)
    ensures FieldsAssigned(fields, |fields|) == []
  {}

  lemma ReadsDirectoryDefinition(share: bool, st: State, s: Bytes, p: nat, t: Table)
    requires Agree(share, st, t)
    requires Has(s, p, EmitDirectoryDefinition(share, st).bytes)
    ensures p < |s| && s[p] == TC_OBJECT
    ensures var e := EmitDirectoryDefinition(share, st);
            DefinitionRead(ReadClassDesc(s, p + 1, t), share, e.st, t, p + |e.bytes|, DIRECTORY_DESC)
  {
    hide Has, ReadClassDesc, FieldsMeaning, FieldsAssigned, Ascii, Join, ReferenceBytes, ClassParts;
    if share && st.defs.treeDirectory != 0 {
      ReadsSharedDefinition(s, p, t, st.defs.treeDirectory, DIRECTORY_DESC);
    } else {
      DirectoryFieldsMeaning();
      DirectoryIsReadable(t);
      ReadsFullDefinition(s, p, t, DIRECTORY_DESC, DIRECTORY_FIELDS);
      if share {
        FirstDefinitions(st);
      }
    }
  }

  lemma DirectoryIsReadable(t: Table)
    requires |t| <= MAX_HANDLES
    ensures ReadableClass(t, DIRECTORY_DESC.name, DIRECTORY_DESC.uid, DIRECTORY_DESC.flags, DIRECTORY_FIELDS)
  {}

  /** The first class definition introduces the class and the three type strings. */
  lemma FirstDefinitions(st: State)
    requires Agree(true, st, []) && st.defs.treeDirectory == 0
    ensures Agree(true, EmitDirectoryDefinition(true, st).st, ClassAssigned(DIRECTORY_DESC, DIRECTORY_FIELDS))
  {
    hide FieldsMeaning, FieldsAssigned, Ascii, Join, ReferenceBytes, ClassParts;
    DirectoryFieldsMeaning();
  }

  lemma ClassesDiffer()
    ensures DIRECTORY_DESC != ARRAY_LIST_DESC && DIRECTORY_DESC != LEAF_DESC && ARRAY_LIST_DESC != LEAF_DESC
    ensures DIRECTORY_CLASS != ARRAY_LIST_CLASS && DIRECTORY_CLASS != LEAF_CLASS && ARRAY_LIST_CLASS != LEAF_CLASS
  {
    hide Ascii;
    assert |DIRECTORY_CLASS| == 46 && |ARRAY_LIST_CLASS| == 19 && |LEAF_CLASS| == 41;
  }

  /** A class the table does not know yet becomes known under the next handle. */
  lemma NewClassKnown(d: Definitions, d': Definitions, t: Table, desc: ClassDesc)
    requires DefinitionsAgree(d, t) && d.treeDirectory != 0
    requires
      || (d.arrayList == 0 && desc == ARRAY_LIST_DESC && d' == d.(arrayList := BASE_WIRE_HANDLE + |t|))
      || (d.treeLeaf == 0 && desc == LEAF_DESC && d' == d.(treeLeaf := BASE_WIRE_HANDLE + |t|))
    ensures DefinitionsAgree(d', t + [ClassEntry(desc)])
  {
    var u := t + [ClassEntry(desc)];
    NewClassDenoted(d, t, desc);
    hide Denotes;
    DenotesLonger(t, u, d.treeDirectory, ClassEntry(DIRECTORY_DESC));
    DenotesLonger(t, u, d.list, StringEntry(LIST_TYPE));
    DenotesLonger(t, u, d.stringType, StringEntry(STRING_TYPE));
    DenotesLonger(t, u, d.treeDirectoryMemberType, StringEntry(DIRECTORY_TYPE));
    if d.arrayList != 0 { DenotesLonger(t, u, d.arrayList, ClassEntry(ARRAY_LIST_DESC)); }
    if d.treeLeaf != 0 { DenotesLonger(t, u, d.treeLeaf, ClassEntry(LEAF_DESC)); }
  }

  lemma NewClassDenoted(d: Definitions, t: Table, desc: ClassDesc)
    requires DefinitionsAgree(d, t) && d.treeDirectory != 0
    requires (d.arrayList == 0 && desc == ARRAY_LIST_DESC) || (d.treeLeaf == 0 && desc == LEAF_DESC)
    ensures Denotes(t + [ClassEntry(desc)], BASE_WIRE_HANDLE + |t|, ClassEntry(desc))
  {
    ClassesDiffer();
    hide Ascii;
    assert (t + [ClassEntry(desc)])[..|t|] == t;
    forall i | 0 <= i < |t| ensures t[i] != ClassEntry(desc) {
      if t[i].ClassEntry? {
        assert BASE_WIRE_HANDLE + i in {d.treeDirectory, d.arrayList, d.treeLeaf};
      }
    }
  }

  /** Reads the class; the handle of the list object comes after it. */
  lemma ReadsArrayListDefinition(share: bool, st: State, s: Bytes, p: nat, t: Table)
    requires Agree(share, st, t) && (share ==> st.defs.treeDirectory != 0)
    requires Has(s, p, EmitArrayListDefinition(share, st).bytes)
    ensures p < |s| && s[p] == TC_OBJECT
    ensures var e := EmitArrayListDefinition(share, st);
            DefinitionRead(ReadClassDesc(s, p + 1, t), share, e.st.(count := e.st.count - 1), t, p + |e.bytes|,
                           ARRAY_LIST_DESC)
  {
    hide Has, ReadClassDesc, FieldsMeaning, FieldsAssigned, Ascii, Join, ReferenceBytes, ClassParts, DefinitionsAgree;
    if share && st.defs.arrayList != 0 {
      ArrayListDenoted(st.defs, t);
      ReadsSharedDefinition(s, p, t, st.defs.arrayList, ARRAY_LIST_DESC);
    } else {
      ArrayListFieldsMeaning();
      ArrayListIsReadable(t);
      ReadsFullDefinition(s, p, t, ARRAY_LIST_DESC, ARRAY_LIST_FIELDS);
      assert ClassAssigned(ARRAY_LIST_DESC, ARRAY_LIST_FIELDS) == [ClassEntry(ARRAY_LIST_DESC)];
      if share {
        NewClassKnown(st.defs, st.defs.(arrayList := st.count), t, ARRAY_LIST_DESC);
      }
    }
  }

  lemma ArrayListDenoted(d: Definitions, t: Table)
    requires DefinitionsAgree(d, t)
    ensures d.arrayList != 0 ==> Denotes(t, d.arrayList, ClassEntry(ARRAY_LIST_DESC))
    ensures d.treeLeaf != 0 ==> Denotes(t, d.treeLeaf, ClassEntry(LEAF_DESC))
  {}

  lemma ArrayListIsReadable(t: Table)
    requires |t| <= MAX_HANDLES
    ensures ReadableClass(t, ARRAY_LIST_DESC.name, ARRAY_LIST_DESC.uid, ARRAY_LIST_DESC.flags, ARRAY_LIST_FIELDS)
  {}

  lemma ReadsLeafDefinition(share: bool, st: State, s: Bytes, p: nat, t: Table)
    requires Agree(share, st, t) && (share ==> st.defs.treeDirectory != 0)
    requires Has(s, p, EmitLeafDefinition(share, st).bytes)
    ensures p < |s| && s[p] == TC_OBJECT
    ensures var e := EmitLeafDefinition(share, st);
            DefinitionRead(ReadClassDesc(s, p + 1, t), share, e.st, t, p + |e.bytes|, LEAF_DESC)
  {
    hide Has, ReadClassDesc, FieldsMeaning, FieldsAssigned, Ascii, Join, ReferenceBytes, ClassParts, DefinitionsAgree,
         LeafFields;
    if share && st.defs.treeLeaf != 0 {
      ArrayListDenoted(st.defs, t);
      ReadsSharedDefinition(s, p, t, st.defs.treeLeaf, LEAF_DESC);
    } else {
      var fields := LeafFields(share, st.defs);
      LeafFieldsMeaning(share, st.defs);
      LeafIsReadable(share, st, t);
      ReadsFullDefinition(s, p, t, LEAF_DESC, fields);
      assert |ClassAssigned(LEAF_DESC, fields)| == if share then 1 else 4;
      if share {
        assert ClassAssigned(LEAF_DESC, fields) == [ClassEntry(LEAF_DESC)];
        NewClassKnown(st.defs, st.defs.(treeLeaf := st.count), t, LEAF_DESC);
      }
    }
  }

  lemma LeafIsReadable(share: bool, st: State, t: Table)
    requires Agree(share, st, t) && (share ==> st.defs.treeDirectory != 0)
    ensures ReadableClass(t, LEAF_DESC.name, LEAF_DESC.uid, LEAF_DESC.flags, LeafFields(share, st.defs))
  {
    hide Denotes, ClassesKnown;
  }
}
