/** The bytes of a stream as numbers and text: what stands on the wire, without the constants that
    the writer and the reader share. */
module SyncBytes {
  import opened Bytes
  import opened SyncTree
  import opened SyncWire
  import opened SyncTheorems

  /** SyncTreeDirectory in full, 220 bytes: TC_OBJECT and TC_CLASSDESC, name, class id, flags and
      number of fields, four booleans, three objects with their types, TC_ENDBLOCKDATA and TC_NULL. */
  const NEW_DIRECTORY_CLASS: Bytes :=
    [0x73, 0x72, 0x00, 0x2E] + Ascii("fr.soe.a3s.domain.repository.SyncTreeDirectory")
    + [0xD8, 0x5F, 0xEB, 0x3C, 0x78, 0x4F, 0x59, 0xF8, 0x02, 0x00, 0x07]
    + [0x5A, 0x00, 0x07] + Ascii("deleted")
    + [0x5A, 0x00, 0x06] + Ascii("hidden")
    + [0x5A, 0x00, 0x0B] + Ascii("markAsAddon")
    + [0x5A, 0x00, 0x07] + Ascii("updated")
    + [0x4C, 0x00, 0x04] + Ascii("list") + [0x74, 0x00, 0x10] + Ascii("Ljava/util/List;")
    + [0x4C, 0x00, 0x04] + Ascii("name") + [0x74, 0x00, 0x12] + Ascii("Ljava/lang/String;")
    + [0x4C, 0x00, 0x06] + Ascii("parent")
    + [0x74, 0x00, 0x30] + Ascii("Lfr/soe/a3s/domain/repository/SyncTreeDirectory;")
    + [0x78, 0x70]

  /** ArrayList in full, 43 bytes. */
  const NEW_LIST_CLASS: Bytes :=
    [0x73, 0x72, 0x00, 0x13] + Ascii("java.util.ArrayList")
    + [0x78, 0x81, 0xD2, 0x1D, 0x99, 0xC7, 0x61, 0x9D, 0x03, 0x00, 0x01]
    + [0x49, 0x00, 0x04] + Ascii("size")
    + [0x78, 0x70]

  /** SyncTreeLeaf in full, 153 bytes. Its types were sent with SyncTreeDirectory. */
  function NewLeafClass(stringType: nat, directoryType: nat): Bytes {
    [0x73, 0x72, 0x00, 0x29] + Ascii("fr.soe.a3s.domain.repository.SyncTreeLeaf")
    + [0x7A, 0xCE, 0xD8, 0x4D, 0x24, 0x27, 0x12, 0xD7, 0x02, 0x00, 0x08]
    + [0x5A, 0x00, 0x0A] + Ascii("compressed")
    + [0x4A, 0x00, 0x0E] + Ascii("compressedSize")
    + [0x5A, 0x00, 0x07] + Ascii("deleted")
    + [0x4A, 0x00, 0x04] + Ascii("size")
    + [0x5A, 0x00, 0x07] + Ascii("updated")
    + [0x4C, 0x00, 0x04] + Ascii("name") + [0x71] + BigEndian(stringType, 4)
    + [0x4C, 0x00, 0x06] + Ascii("parent") + [0x71] + BigEndian(directoryType, 4)
    + [0x4C, 0x00, 0x04] + Ascii("sha1") + [0x71] + BigEndian(stringType, 4)
    + [0x78, 0x70]
  }

  lemma TwoBytes(n: nat)
    requires n < 256
    ensures BigEndian(n, 2) == [0x00, n]
  {
    assert BigEndian(n / 256, 1) == [0];
  }

  /** A code and a short string, sent after `out`. */
  lemma SendsText(out: Bytes, code: byte, text: Bytes)
    requires |text| < 256
    ensures out + ([code] + Utf(text)) == out + [code, 0x00, |text|] + text
  {
    TwoBytes(|text|);
    hide BigEndian;
    assert [code] + ([0x00, |text|] + text) == [code, 0x00, |text|] + text;
    Associates(out, [code, 0x00, |text|], text);
  }

  lemma SendsPrimitive(out: Bytes, fields: seq<FieldWire>, k: nat, code: byte, name: Bytes)
    requires k < |fields| && fields[k] == PrimitiveField(code, name) && |name| < 256
    ensures Sent(out, FieldParts(fields), k) == Sent(out + [code, 0x00, |name|] + name, FieldParts(fields), k + 1)
  {
    hide Utf, Sent;
    SendNext(out, FieldParts(fields), k);
    SendsText(out, code, name);
  }

  lemma SendsNewType(out: Bytes, fields: seq<FieldWire>, k: nat, name: Bytes, typeName: Bytes)
    requires k < |fields| && fields[k] == NewTypeField(name, typeName) && |name| < 256 && |typeName| < 256
    ensures Sent(out, FieldParts(fields), k)
         == Sent(out + [0x4C, 0x00, |name|] + name + [0x74, 0x00, |typeName|] + typeName, FieldParts(fields), k + 1)
  {
    hide Utf, Sent;
    SendNext(out, FieldParts(fields), k);
    Associates(out, [0x4C] + Utf(name), [0x74] + Utf(typeName));
    SendsText(out, 0x4C, name);
    SendsText(out + [0x4C, 0x00, |name|] + name, 0x74, typeName);
  }

  lemma SendsSharedType(out: Bytes, fields: seq<FieldWire>, k: nat, name: Bytes, handle: nat)
    requires k < |fields| && fields[k].SharedTypeField? && fields[k].name == name && fields[k].handle == handle
    requires |name| < 256
    ensures Sent(out, FieldParts(fields), k)
         == Sent(out + [0x4C, 0x00, |name|] + name + [0x71] + BigEndian(handle, 4), FieldParts(fields), k + 1)
  {
    hide Utf, Sent, BigEndian;
    SendNext(out, FieldParts(fields), k);
    Associates(out, [0x4C] + Utf(name), [0x71] + BigEndian(handle, 4));
    SendsText(out, 0x4C, name);
    Associates(out + [0x4C, 0x00, |name|] + name, [0x71], BigEndian(handle, 4));
  }

  /** A descriptor without its fields: `fields` are the bytes up to the end of the last field. */
  lemma SendsClass(name: Bytes, uid: Bytes, flags: byte, fields: seq<FieldWire>, end: Bytes)
    requires |name| < 256 && |fields| < 256
    requires Sent([0x73, 0x72, 0x00, |name|] + name + (uid + [flags, 0x00, |fields|]), FieldParts(fields), 0) == end
    ensures Join(ClassParts(name, uid, flags, fields), 0) == end + [0x78, 0x70]
  {
    hide Utf, Sent, Join, BigEndian, FieldParts;
    var parts := ClassParts(name, uid, flags, fields);
    var head := [0x73, 0x72, 0x00, |name|] + name;
    SentIsJoin([], parts, 0);
    SendNext([], parts, 0);
    SendNext([] + [0x73], parts, 1);
    SendsText([] + [0x73], 0x72, name);
    assert [] + [0x73] + [0x72, 0x00, |name|] == [0x73, 0x72, 0x00, |name|];
    SendNext(head, parts, 2);
    TwoBytes(|fields|);
    assert uid + [flags] + [0x00, |fields|] == uid + [flags, 0x00, |fields|];
    SendNext(head + parts[2], parts, 3);
    SentIsJoin(head + parts[2], FieldParts(fields), 0);
    SendNext(end, parts, 4);
    AllSent(end + [0x78, 0x70], parts);
  }

  lemma AllSent(out: Bytes, parts: seq<Bytes>)
    ensures Sent(out, parts, |parts|) == out
  {}

  lemma SendsFlagFields(out: Bytes, f: seq<FieldWire>)
    requires |f| >= 4 && f[0] == Boolean("deleted") && f[1] == Boolean("hidden")
    requires f[2] == Boolean("markAsAddon") && f[3] == Boolean("updated")
    ensures Sent(out, FieldParts(f), 0)
         == Sent(out + [0x5A, 0x00, 0x07] + Ascii("deleted")
                 + [0x5A, 0x00, 0x06] + Ascii("hidden")
                 + [0x5A, 0x00, 0x0B] + Ascii("markAsAddon")
                 + [0x5A, 0x00, 0x07] + Ascii("updated"), FieldParts(f), 4)
  {
    hide Ascii, Sent, FieldParts;
    SendsPrimitive(out, f, 0, 0x5A, Ascii("deleted"));
    var o1 := out + [0x5A, 0x00, 0x07] + Ascii("deleted");
    SendsPrimitive(o1, f, 1, 0x5A, Ascii("hidden"));
    var o2 := o1 + [0x5A, 0x00, 0x06] + Ascii("hidden");
    SendsPrimitive(o2, f, 2, 0x5A, Ascii("markAsAddon"));
    var o3 := o2 + [0x5A, 0x00, 0x0B] + Ascii("markAsAddon");
    SendsPrimitive(o3, f, 3, 0x5A, Ascii("updated"));
  }

  lemma SendsObjectFields(out: Bytes, f: seq<FieldWire>)
    requires |f| == 7 && f[4] == NewTypeField(Ascii("list"), LIST_TYPE)
    requires f[5] == NewTypeField(Ascii("name"), STRING_TYPE) && f[6] == NewTypeField(Ascii("parent"), DIRECTORY_TYPE)
    ensures Sent(out, FieldParts(f), 4)
         == out + [0x4C, 0x00, 0x04] + Ascii("list") + [0x74, 0x00, 0x10] + LIST_TYPE
            + [0x4C, 0x00, 0x04] + Ascii("name") + [0x74, 0x00, 0x12] + STRING_TYPE
            + [0x4C, 0x00, 0x06] + Ascii("parent") + [0x74, 0x00, 0x30] + DIRECTORY_TYPE
  {
    hide Ascii, Sent, FieldParts;
    SendsNewType(out, f, 4, Ascii("list"), LIST_TYPE);
    var o1 := out + [0x4C, 0x00, 0x04] + Ascii("list") + [0x74, 0x00, 0x10] + LIST_TYPE;
    SendsNewType(o1, f, 5, Ascii("name"), STRING_TYPE);
    var o2 := o1 + [0x4C, 0x00, 0x04] + Ascii("name") + [0x74, 0x00, 0x12] + STRING_TYPE;
    SendsNewType(o2, f, 6, Ascii("parent"), DIRECTORY_TYPE);
    AllSent(o2 + [0x4C, 0x00, 0x06] + Ascii("parent") + [0x74, 0x00, 0x30] + DIRECTORY_TYPE, FieldParts(f));
  }

  lemma SendsDirectoryFields(out: Bytes)
    ensures Sent(out, FieldParts(DIRECTORY_FIELDS), 0)
         == out + [0x5A, 0x00, 0x07] + Ascii("deleted")
            + [0x5A, 0x00, 0x06] + Ascii("hidden")
            + [0x5A, 0x00, 0x0B] + Ascii("markAsAddon")
            + [0x5A, 0x00, 0x07] + Ascii("updated")
            + [0x4C, 0x00, 0x04] + Ascii("list") + [0x74, 0x00, 0x10] + LIST_TYPE
            + [0x4C, 0x00, 0x04] + Ascii("name") + [0x74, 0x00, 0x12] + STRING_TYPE
            + [0x4C, 0x00, 0x06] + Ascii("parent") + [0x74, 0x00, 0x30] + DIRECTORY_TYPE
  {
    hide Ascii, Sent, FieldParts;
    SendsFlagFields(out, DIRECTORY_FIELDS);
    SendsObjectFields(out + [0x5A, 0x00, 0x07] + Ascii("deleted")
                      + [0x5A, 0x00, 0x06] + Ascii("hidden")
                      + [0x5A, 0x00, 0x0B] + Ascii("markAsAddon")
                      + [0x5A, 0x00, 0x07] + Ascii("updated"), DIRECTORY_FIELDS);
  }

  lemma DirectoryClassBytes(st: State)
    requires st.defs.treeDirectory == 0
    ensures EmitDirectoryDefinition(true, st).bytes == NEW_DIRECTORY_CLASS
  {
    hide Ascii, Sent, Join, FieldParts, ClassParts;
    var head := [0x73, 0x72, 0x00, 0x2E] + DIRECTORY_CLASS + (DIRECTORY_UID + [0x02, 0x00, 0x07]);
    SendsDirectoryFields(head);
    SendsClass(DIRECTORY_CLASS, DIRECTORY_UID, 0x02, DIRECTORY_FIELDS, Sent(head, FieldParts(DIRECTORY_FIELDS), 0));
    assert DIRECTORY_UID + [0x02, 0x00, 0x07] == [0xD8, 0x5F, 0xEB, 0x3C, 0x78, 0x4F, 0x59, 0xF8, 0x02, 0x00, 0x07];
  }

  lemma ListClassBytes(st: State)
    requires st.defs.arrayList == 0
    ensures EmitArrayListDefinition(true, st).bytes == NEW_LIST_CLASS
  {
    hide Ascii, Sent, Join, FieldParts, ClassParts;
    var f := ARRAY_LIST_FIELDS;
    var o := [0x73, 0x72, 0x00, 0x13] + ARRAY_LIST_CLASS + (ARRAY_LIST_UID + [0x03, 0x00, 0x01]);
    var o1 := o + [0x49, 0x00, 0x04] + Ascii("size");
    SendsPrimitive(o, f, 0, 0x49, Ascii("size"));
    AllSent(o1, FieldParts(f));
    SendsClass(ARRAY_LIST_CLASS, ARRAY_LIST_UID, 0x03, f, o1);
  }

  lemma SendsNumberFields(out: Bytes, f: seq<FieldWire>)
    requires |f| >= 5 && f[0] == Boolean("compressed") && f[1] == Long("compressedSize") && f[2] == Boolean("deleted")
    requires f[3] == Long("size") && f[4] == Boolean("updated")
    ensures Sent(out, FieldParts(f), 0)
         == Sent(out + [0x5A, 0x00, 0x0A] + Ascii("compressed")
                 + [0x4A, 0x00, 0x0E] + Ascii("compressedSize")
                 + [0x5A, 0x00, 0x07] + Ascii("deleted")
                 + [0x4A, 0x00, 0x04] + Ascii("size")
                 + [0x5A, 0x00, 0x07] + Ascii("updated"), FieldParts(f), 5)
  {
    hide Ascii, Sent, FieldParts;
    SendsPrimitive(out, f, 0, 0x5A, Ascii("compressed"));
    var o1 := out + [0x5A, 0x00, 0x0A] + Ascii("compressed");
    SendsPrimitive(o1, f, 1, 0x4A, Ascii("compressedSize"));
    var o2 := o1 + [0x4A, 0x00, 0x0E] + Ascii("compressedSize");
    SendsPrimitive(o2, f, 2, 0x5A, Ascii("deleted"));
    var o3 := o2 + [0x5A, 0x00, 0x07] + Ascii("deleted");
    SendsPrimitive(o3, f, 3, 0x4A, Ascii("size"));
    var o4 := o3 + [0x4A, 0x00, 0x04] + Ascii("size");
    SendsPrimitive(o4, f, 4, 0x5A, Ascii("updated"));
  }

  lemma SendsSharedFields(out: Bytes, f: seq<FieldWire>, s: nat, d: nat)
    requires |f| == 8 && f[5] == SharedTypeField(Ascii("name"), STRING_TYPE, s)
    requires f[6] == SharedTypeField(Ascii("parent"), DIRECTORY_TYPE, d)
    requires f[7] == SharedTypeField(Ascii("sha1"), STRING_TYPE, s)
    ensures Sent(out, FieldParts(f), 5)
         == out + [0x4C, 0x00, 0x04] + Ascii("name") + [0x71] + BigEndian(s, 4)
            + [0x4C, 0x00, 0x06] + Ascii("parent") + [0x71] + BigEndian(d, 4)
            + [0x4C, 0x00, 0x04] + Ascii("sha1") + [0x71] + BigEndian(s, 4)
  {
    hide Ascii, Sent, FieldParts, BigEndian;
    SendsSharedType(out, f, 5, Ascii("name"), s);
    var o1 := out + [0x4C, 0x00, 0x04] + Ascii("name") + [0x71] + BigEndian(s, 4);
    SendsSharedType(o1, f, 6, Ascii("parent"), d);
    var o2 := o1 + [0x4C, 0x00, 0x06] + Ascii("parent") + [0x71] + BigEndian(d, 4);
    SendsSharedType(o2, f, 7, Ascii("sha1"), s);
    AllSent(o2 + [0x4C, 0x00, 0x04] + Ascii("sha1") + [0x71] + BigEndian(s, 4), FieldParts(f));
  }

  lemma SendsLeafFields(out: Bytes, defs: Definitions)
    ensures Sent(out, FieldParts(LeafFields(true, defs)), 0)
         == out + [0x5A, 0x00, 0x0A] + Ascii("compressed")
            + [0x4A, 0x00, 0x0E] + Ascii("compressedSize")
            + [0x5A, 0x00, 0x07] + Ascii("deleted")
            + [0x4A, 0x00, 0x04] + Ascii("size")
            + [0x5A, 0x00, 0x07] + Ascii("updated")
            + [0x4C, 0x00, 0x04] + Ascii("name") + [0x71] + BigEndian(defs.stringType, 4)
            + [0x4C, 0x00, 0x06] + Ascii("parent") + [0x71] + BigEndian(defs.treeDirectoryMemberType, 4)
            + [0x4C, 0x00, 0x04] + Ascii("sha1") + [0x71] + BigEndian(defs.stringType, 4)
  {
    hide Ascii, Sent, FieldParts, BigEndian;
    var f := LeafFields(true, defs);
    SendsNumberFields(out, f);
    SendsSharedFields(out + [0x5A, 0x00, 0x0A] + Ascii("compressed")
                      + [0x4A, 0x00, 0x0E] + Ascii("compressedSize")
                      + [0x5A, 0x00, 0x07] + Ascii("deleted")
                      + [0x4A, 0x00, 0x04] + Ascii("size")
                      + [0x5A, 0x00, 0x07] + Ascii("updated"), f, defs.stringType, defs.treeDirectoryMemberType);
  }

  lemma LeafClassBytes(st: State)
    requires st.defs.treeLeaf == 0
    ensures EmitLeafDefinition(true, st).bytes == NewLeafClass(st.defs.stringType, st.defs.treeDirectoryMemberType)
  {
    hide Ascii, Sent, Join, FieldParts, ClassParts, BigEndian, LeafFields;
    LeafFieldCount(st.defs);
    var fields := LeafFields(true, st.defs);
    var head := [0x73, 0x72, 0x00, 0x29] + LEAF_CLASS + (LEAF_UID + [0x02, 0x00, 0x08]);
    SendsLeafFields(head, st.defs);
    SendsClass(LEAF_CLASS, LEAF_UID, 0x02, fields, Sent(head, FieldParts(fields), 0));
    assert LEAF_UID + [0x02, 0x00, 0x08] == [0x7A, 0xCE, 0xD8, 0x4D, 0x24, 0x27, 0x12, 0xD7, 0x02, 0x00, 0x08];
  }

  lemma LeafFieldCount(defs: Definitions)
    ensures |LeafFields(true, defs)| == 8
  {}

  lemma ClassLengths(stringType: nat, directoryType: nat)
    ensures |NEW_DIRECTORY_CLASS| == 220
    ensures |NEW_LIST_CLASS| == 43
    ensures |NewLeafClass(stringType, directoryType)| == 153
  {
    hide Ascii, BigEndian;
  }

  /** A class that was sent before. */
  lemma SharedClassBytes(st: State)
    ensures st.defs.treeDirectory != 0 ==>
              EmitDirectoryDefinition(true, st).bytes == [0x73, 0x71] + BigEndian(st.defs.treeDirectory, 4)
    ensures st.defs.arrayList != 0 ==>
              EmitArrayListDefinition(true, st).bytes == [0x73, 0x71] + BigEndian(st.defs.arrayList, 4)
    ensures st.defs.treeLeaf != 0 ==>
              EmitLeafDefinition(true, st).bytes == [0x73, 0x71] + BigEndian(st.defs.treeLeaf, 4)
  {
    hide Join, ClassParts, BigEndian;
    SharedBytes(st.defs.treeDirectory);
    SharedBytes(st.defs.arrayList);
    SharedBytes(st.defs.treeLeaf);
  }

  lemma SharedBytes(h: nat)
    ensures [0x73] + ReferenceBytes(h) == [0x73, 0x71] + BigEndian(h, 4)
  {}

  function Bit(b: bool): byte { if b then 0x01 else 0x00 }

  lemma LeafBytes(out: Bytes, n: Node, parent: nat, st: State)
    requires n.Leaf?
    ensures out + EmitLeaf(true, n, parent, st).bytes
         == out + EmitLeafDefinition(true, st).bytes
            + [Bit(n.compressed)] + BigEndian(n.compressedSize, 8) + [Bit(n.deleted)] + BigEndian(n.size, 8)
            + [Bit(n.updated)]
            + [0x74] + BigEndian(|n.name|, 2) + n.name
            + [0x71] + BigEndian(parent, 4)
            + [0x74] + BigEndian(|n.sha1|, 2) + n.sha1
  {
    hide Sent, Join, BigEndian, EmitLeafDefinition;
    var definition := EmitLeafDefinition(true, st).bytes;
    var parts := LeafParts(definition, n, parent);
    var numbers := out + definition + Join(LeafNumbers(n), 0);
    SentIsJoin(out, parts, 0);
    SendNext(out, parts, 0);
    SendNext(out + definition, parts, 1);
    SendNext(numbers, parts, 2);
    AllSent(numbers + Join(LeafObjects(n, parent), 0), parts);
    LeafNumberBytes(out + definition, n);
    LeafObjectBytes(numbers, n, parent);
  }

  lemma LeafNumberBytes(out: Bytes, n: Node)
    requires n.Leaf?
    ensures out + Join(LeafNumbers(n), 0)
         == out + [Bit(n.compressed)] + BigEndian(n.compressedSize, 8) + [Bit(n.deleted)] + BigEndian(n.size, 8)
            + [Bit(n.updated)]
  {
    hide Sent, Join, BigEndian;
    var parts := LeafNumbers(n);
    SentIsJoin(out, parts, 0);
    SendNext(out, parts, 0);
    SendNext(out + parts[0], parts, 1);
    SendNext(out + parts[0] + parts[1], parts, 2);
    SendNext(out + parts[0] + parts[1] + parts[2], parts, 3);
    SendNext(out + parts[0] + parts[1] + parts[2] + parts[3], parts, 4);
    AllSent(out + parts[0] + parts[1] + parts[2] + parts[3] + parts[4], parts);
  }

  /** A string object, sent after `out`. */
  lemma SendsString(out: Bytes, text: Bytes)
    ensures out + StringBytes(text) == out + [0x74] + BigEndian(|text|, 2) + text
  {
    hide BigEndian;
    Associates(out, [0x74], BigEndian(|text|, 2) + text);
    Associates(out + [0x74], BigEndian(|text|, 2), text);
  }

  lemma LeafObjectBytes(out: Bytes, n: Node, parent: nat)
    requires n.Leaf?
    ensures out + Join(LeafObjects(n, parent), 0)
         == out + [0x74] + BigEndian(|n.name|, 2) + n.name
            + [0x71] + BigEndian(parent, 4)
            + [0x74] + BigEndian(|n.sha1|, 2) + n.sha1
  {
    hide Sent, Join, BigEndian, StringBytes;
    var parts := LeafObjects(n, parent);
    SentIsJoin(out, parts, 0);
    SendNext(out, parts, 0);
    SendNext(out + parts[0], parts, 1);
    SendNext(out + parts[0] + parts[1], parts, 2);
    AllSent(out + parts[0] + parts[1] + parts[2], parts);
    SendsString(out, n.name);
    Associates(out + parts[0], [0x71], BigEndian(parent, 4));
    SendsString(out + parts[0] + parts[1], n.sha1);
  }

  /** A directory, with its list between its flags and its name. */
  lemma DirectoryBytes(out: Bytes, n: Node, parent: nat, st: State)
    requires n.Directory?
    ensures var d := EmitDirectoryDefinition(true, st);
            var a := EmitArrayListDefinition(true, d.st.(count := d.st.count + 1));
            out + EmitDirectory(true, n, parent, st).bytes
            == out + d.bytes
               + [Bit(n.deleted), Bit(n.hidden), Bit(n.markAsAddon), Bit(n.updated)]
               + a.bytes
               + BigEndian(|n.list|, 4) + [0x77, 0x04] + BigEndian(|n.list|, 4)
               + EmitAll(true, n.list, d.st.count, a.st).bytes
               + [0x78]
               + [0x74] + BigEndian(|n.name|, 2) + n.name
               + (if parent != 0 then [0x71] + BigEndian(parent, 4) else [])
  {
    hide Sent, Join, BigEndian, EmitDirectoryDefinition, EmitArrayListDefinition, EmitAll;
    var d := EmitDirectoryDefinition(true, st);
    var l := EmitList(true, n, d.st.count, d.st.(count := d.st.count + 1));
    var parts := DirectoryParts(d.bytes, l.bytes, n, parent);
    var flags := out + d.bytes + parts[1];
    var list := flags + parts[2];
    SentIsJoin(out, parts, 0);
    SendNext(out, parts, 0);
    SendNext(out + d.bytes, parts, 1);
    SendNext(flags, parts, 2);
    SendNext(list, parts, 3);
    AllSent(list + parts[3], parts);
    FlagBytes(n);
    ListBytes(flags, n, d.st.count, d.st.(count := d.st.count + 1));
    EndBytes(list, n, parent);
  }

  lemma FlagBytes(n: Node)
    requires n.Directory?
    ensures Join(Flags(n), 0) == [Bit(n.deleted), Bit(n.hidden), Bit(n.markAsAddon), Bit(n.updated)]
  {
    var parts := Flags(n);
    assert Join(parts, 4) == [];
    assert Join(parts, 3) == [Bit(n.updated)];
    assert Join(parts, 2) == [Bit(n.markAsAddon), Bit(n.updated)];
    assert Join(parts, 1) == [Bit(n.hidden), Bit(n.markAsAddon), Bit(n.updated)];
  }

  lemma ListBytes(out: Bytes, n: Node, self: nat, st: State)
    requires n.Directory?
    ensures var a := EmitArrayListDefinition(true, st);
            out + EmitList(true, n, self, st).bytes
            == out + a.bytes
               + BigEndian(|n.list|, 4) + [0x77, 0x04] + BigEndian(|n.list|, 4)
               + EmitAll(true, n.list, self, a.st).bytes
               + [0x78]
  {
    hide Sent, Join, BigEndian, EmitArrayListDefinition, EmitAll;
    var a := EmitArrayListDefinition(true, st);
    var parts := ListParts(a.bytes, EmitAll(true, n.list, self, a.st).bytes, n);
    SentIsJoin(out, parts, 0);
    SendNext(out, parts, 0);
    SendNext(out + parts[0], parts, 1);
    SendNext(out + parts[0] + parts[1], parts, 2);
    SendNext(out + parts[0] + parts[1] + parts[2], parts, 3);
    AllSent(out + parts[0] + parts[1] + parts[2] + parts[3], parts);
    ListHeadBytes(out + parts[0], n);
  }

  lemma ListHeadBytes(out: Bytes, n: Node)
    requires n.Directory?
    ensures out + Join(ListHead(n), 0) == out + BigEndian(|n.list|, 4) + [0x77, 0x04] + BigEndian(|n.list|, 4)
  {
    hide Sent, Join, BigEndian;
    var parts := ListHead(n);
    SentIsJoin(out, parts, 0);
    SendNext(out, parts, 0);
    SendNext(out + parts[0], parts, 1);
    SendNext(out + parts[0] + parts[1], parts, 2);
    assert out + parts[0] + parts[1] + parts[2] == out + parts[0] + [0x77, 0x04];
    SendNext(out + parts[0] + [0x77, 0x04], parts, 3);
    AllSent(out + parts[0] + [0x77, 0x04] + parts[3], parts);
  }

  lemma EndBytes(out: Bytes, n: Node, parent: nat)
    requires n.Directory?
    ensures out + Join(DirectoryEnd(n, parent), 0)
         == out + [0x74] + BigEndian(|n.name|, 2) + n.name
            + (if parent != 0 then [0x71] + BigEndian(parent, 4) else [])
  {
    hide Sent, Join, BigEndian, StringBytes;
    var parts := DirectoryEnd(n, parent);
    SentIsJoin(out, parts, 0);
    SendNext(out, parts, 0);
    SendNext(out + parts[0], parts, 1);
    AllSent(out + parts[0] + parts[1], parts);
    SendsString(out, n.name);
  }

  /** The whole stream of any tree: the header, the root and the closing null. The first handles go to
      SyncTreeDirectory (0x7E0000), its three type strings (0x7E0001 to 0x7E0003), the root
      (0x7E0004), ArrayList (0x7E0005) and the list of the root (0x7E0006). */
  lemma StreamBytes(n: Node)
    requires n.Directory?
    ensures var rest := State(0x7E_0007, Definitions(0x7E_0000, 0x7E_0003, 0, 0x7E_0001, 0x7E_0005, 0x7E_0002));
            Stream(0, n)
            == [0x00, 0x00, 0x00, 0x00]
               + NEW_DIRECTORY_CLASS
               + [Bit(n.deleted), Bit(n.hidden), Bit(n.markAsAddon), Bit(n.updated)]
               + NEW_LIST_CLASS
               + BigEndian(|n.list|, 4) + [0x77, 0x04] + BigEndian(|n.list|, 4)
               + EmitAll(true, n.list, 0x7E_0004, rest).bytes
               + [0x78]
               + [0x74] + BigEndian(|n.name|, 2) + n.name
               + [0x70]
  {
    hide BigEndian, Join, EmitAll, ClassParts;
    DirectoryClassBytes(FRESH);
    ListClassBytes(EmitDirectoryDefinition(true, FRESH).st.(count := 0x7E_0005));
    DirectoryBytes([0x00, 0x00, 0x00, 0x00], n, 0, FRESH);
    ZeroHeader();
    Associates([0x00, 0x00, 0x00, 0x00], EmitDirectory(true, n, 0, FRESH).bytes, [0x70]);
  }
}
