/** The writer itself: every method appends to the output buffer and updates the context. */
module SyncWriter {
  import opened Bytes
  import opened JavaStreamReader
  import opened SyncTree
  import opened SyncWire

  class Output {
    var data: Bytes

    constructor ()
      ensures data == []
    {
      data := [];
    }

    method PushBack(b: byte)
      modifies this
      ensures data == old(data) + [b]
    {
      data := data + [b];
    }

    method Insert(bytes: Bytes)
      modifies this
      ensures data == old(data) + bytes
    {
      data := data + bytes;
    }

    method WriteInt64(num: int)
      modifies this
      ensures data == old(data) + BigEndian(num, 8)
    {
      BigEndianIsBytes(num, 8);
      PushBack(ByteAt(num, 7));
      PushBack(ByteAt(num, 6));
      PushBack(ByteAt(num, 5));
      PushBack(ByteAt(num, 4));
      PushBack(ByteAt(num, 3));
      PushBack(ByteAt(num, 2));
      PushBack(ByteAt(num, 1));
      PushBack(ByteAt(num, 0));
      assert data[|old(data)|..] == BigEndian(num, 8);
    }

    method WriteInt32(num: int)
      modifies this
      ensures data == old(data) + BigEndian(num, 4)
    {
      BigEndianIsBytes(num, 4);
      PushBack(ByteAt(num, 3));
      PushBack(ByteAt(num, 2));
      PushBack(ByteAt(num, 1));
      PushBack(ByteAt(num, 0));
      assert data[|old(data)|..] == BigEndian(num, 4);
    }

    method WriteInt16(num: int)
      modifies this
      ensures data == old(data) + BigEndian(num, 2)
    {
      BigEndianIsBytes(num, 2);
      PushBack(ByteAt(num, 1));
      PushBack(ByteAt(num, 0));
      assert data[|old(data)|..] == BigEndian(num, 2);
    }

    method WriteBool(val: bool)
      modifies this
      ensures data == old(data) + [BoolByte(val)]
    {
      PushBack(if val then 1 else 0);
    }

    /** A write type of 0 sends no type byte. */
    method WriteString(msg: Bytes, writeType: byte)
      modifies this
      ensures data == old(data) + ((if writeType != 0 then [writeType] else []) + Utf(msg))
    {
      if writeType != 0 {
        PushBack(writeType);
      }
      WriteInt16(|msg|);
      Insert(msg);
      assert data[|old(data)|..] == (if writeType != 0 then [writeType] else []) + Utf(msg);
    }
  }

  class Context {
    var parents: seq<nat>
    var instanceCount: nat
    var definitions: Definitions

    constructor ()
      ensures parents == [0, 0, 0] && Bookkeeping() == FRESH
    {
      parents := [0, 0, 0];
      instanceCount := 0x7E_0000;
      definitions := Definitions(0, 0, 0, 0, 0, 0);
    }

    function Bookkeeping(): State
      reads this
    {
      State(instanceCount, definitions)
    }

    method GetInstance() returns (h: nat)
      modifies this`instanceCount
      ensures h == old(instanceCount) && instanceCount == h + 1
    {
      h := instanceCount;
      instanceCount := instanceCount + 1;
    }
  }

  /** What one call added: the emission `e` after the output `start`. */
  twostate predicate Emitted(output: Output, context: Context, e: Emission)
    reads output, context
  {
    && output.data == old(output.data) + e.bytes
    && context.Bookkeeping() == e.st
    && context.parents == old(context.parents)
  }

  /** Sends field k of a descriptor. `goal` is the output after the last field. */
  method WritePrimitiveField(output: Output, name: Bytes, code: byte,
                             ghost fields: seq<FieldWire>, ghost k: nat, ghost goal: Bytes)
    requires k < |fields| && fields[k] == PrimitiveField(code, name) && code != 0
    requires Sent(output.data, FieldParts(fields), k) == goal
    modifies output
    ensures Sent(output.data, FieldParts(fields), k + 1) == goal
  {
    SendNext(output.data, FieldParts(fields), k);
    output.WriteString(name, code);
  }

  /** Sends an object field together with its type string, which takes a handle. */
  method WriteNewTypeField(output: Output, context: Context, name: Bytes, typeName: Bytes,
                           ghost fields: seq<FieldWire>, ghost k: nat, ghost goal: Bytes)
    returns (h: nat)
    requires k < |fields| && fields[k] == NewTypeField(name, typeName)
    requires Sent(output.data, FieldParts(fields), k) == goal
    modifies output, context`instanceCount
    ensures Sent(output.data, FieldParts(fields), k + 1) == goal
    ensures h == old(context.instanceCount) && context.instanceCount == h + 1
  {
    SendNext(output.data, FieldParts(fields), k);
    Associates(output.data, [FIELD_OBJECT] + Utf(name), StringBytes(typeName));
    output.WriteString(name, FIELD_OBJECT);
    h := context.GetInstance();
    output.WriteString(typeName, TC_STRING);
  }

  /** Sends an object field whose type string was sent before. */
  method WriteSharedTypeField(output: Output, name: Bytes, handle: nat,
                              ghost fields: seq<FieldWire>, ghost k: nat, ghost goal: Bytes)
    requires k < |fields| && fields[k].SharedTypeField? && fields[k].name == name && fields[k].handle == handle
    requires Sent(output.data, FieldParts(fields), k) == goal
    modifies output
    ensures Sent(output.data, FieldParts(fields), k + 1) == goal
  {
    SendNext(output.data, FieldParts(fields), k);
    Associates(output.data, [FIELD_OBJECT] + Utf(name), ReferenceBytes(handle));
    output.WriteString(name, FIELD_OBJECT);
    WriteReference(output, handle);
  }

  method WriteReference(output: Output, handle: nat)
    modifies output
    ensures output.data == old(output.data) + ReferenceBytes(handle)
  {
    Associates(output.data, [TC_REFERENCE], BigEndian(handle, 4));
    output.PushBack(TC_REFERENCE);
    output.WriteInt32(handle);
  }

  /** TC_OBJECT, then a reference to a descriptor sent before. */
  method WriteSharedDefinition(output: Output, handle: nat)
    modifies output
    ensures output.data == old(output.data) + ([TC_OBJECT] + ReferenceBytes(handle))
  {
    Associates(output.data, [TC_OBJECT], ReferenceBytes(handle));
    output.PushBack(TC_OBJECT);
    WriteReference(output, handle);
  }

  /** Starts a new descriptor: all but its fields and its end. */
  method BeginDefinition(output: Output, context: Context, name: Bytes, rawData: Bytes,
                         ghost parts: seq<Bytes>, ghost goal: Bytes)
    returns (h: nat)
    requires |parts| == 5 && parts[0] == [TC_OBJECT] && parts[1] == [TC_CLASSDESC] + Utf(name) && parts[2] == rawData
    requires Sent(output.data, parts, 0) == goal
    modifies output, context`instanceCount
    ensures Sent(output.data, parts, 3) == goal
    ensures h == old(context.instanceCount) && context.instanceCount == h + 1
  {
    SendNext(output.data, parts, 0);
    output.PushBack(TC_OBJECT);
    h := context.GetInstance();
    SendNext(output.data, parts, 1);
    output.WriteString(name, TC_CLASSDESC);
    SendNext(output.data, parts, 2);
    output.Insert(rawData);
  }

  method EndDefinition(output: Output, ghost parts: seq<Bytes>, ghost goal: Bytes)
    requires |parts| == 5 && parts[4] == [TC_ENDBLOCKDATA, TC_NULL]
    requires Sent(output.data, parts, 4) == goal
    modifies output
    ensures output.data == goal
  {
    SendNext(output.data, parts, 4);
    output.PushBack(TC_ENDBLOCKDATA);
    output.PushBack(TC_NULL);
    assert output.data == old(output.data) + parts[4];
  }

  method SerializeDirectoryDefinition(output: Output, context: Context)
    modifies output, context
    ensures Emitted(output, context, EmitDirectoryDefinition(true, old(context.Bookkeeping())))
  {
    if context.definitions.treeDirectory != 0 {
      WriteSharedDefinition(output, context.definitions.treeDirectory);
      return;
    }
    ghost var f := DIRECTORY_FIELDS;
    ghost var parts := ClassParts(DIRECTORY_CLASS, DIRECTORY_UID, SC_SERIALIZABLE, f);
    ghost var goal := Sent(output.data, parts, 0);
    SentIsJoin(output.data, parts, 0);
    var rawData: Bytes := [0xD8, 0x5F, 0xEB, 0x3C, 0x78, 0x4F, 0x59, 0xF8, 0x02, 0x00, 0x07];
    assert rawData == parts[2];
    var h := BeginDefinition(output, context, DIRECTORY_CLASS, rawData, parts, goal);
    context.definitions := context.definitions.(treeDirectory := h);

    SendNext(output.data, parts, 3);
    SerializeDirectoryFields(output, context, f);
    EndDefinition(output, parts, goal);
  }

  method SerializeDirectoryFields(output: Output, context: Context, ghost f: seq<FieldWire>)
    requires |f| == 7
    requires f[0] == Boolean("deleted") && f[1] == Boolean("hidden")
    requires f[2] == Boolean("markAsAddon") && f[3] == Boolean("updated")
    requires f[4] == NewTypeField(Ascii("list"), LIST_TYPE)
    requires f[5] == NewTypeField(Ascii("name"), STRING_TYPE)
    requires f[6] == NewTypeField(Ascii("parent"), DIRECTORY_TYPE)
    modifies output, context
    ensures output.data == old(output.data) + Join(FieldParts(f), 0)
    ensures context.parents == old(context.parents) && context.instanceCount == old(context.instanceCount) + 3
    ensures context.definitions
         == old(context.definitions).(list := old(context.instanceCount), stringType := old(context.instanceCount) + 1,
                                      treeDirectoryMemberType := old(context.instanceCount) + 2)
  {
    hide Join, FieldParts, Utf, BigEndian, Ascii;
    ghost var goal := output.data + Join(FieldParts(f), 0);
    SentIsJoin(output.data, FieldParts(f), 0);
    WritePrimitiveField(output, Ascii("deleted"), FIELD_BOOLEAN, f, 0, goal);
    WritePrimitiveField(output, Ascii("hidden"), FIELD_BOOLEAN, f, 1, goal);
    WritePrimitiveField(output, Ascii("markAsAddon"), FIELD_BOOLEAN, f, 2, goal);
    WritePrimitiveField(output, Ascii("updated"), FIELD_BOOLEAN, f, 3, goal);
    var h := WriteNewTypeField(output, context, Ascii("list"), LIST_TYPE, f, 4, goal);
    context.definitions := context.definitions.(list := h);
    h := WriteNewTypeField(output, context, Ascii("name"), STRING_TYPE, f, 5, goal);
    context.definitions := context.definitions.(stringType := h);
    h := WriteNewTypeField(output, context, Ascii("parent"), DIRECTORY_TYPE, f, 6, goal);
    context.definitions := context.definitions.(treeDirectoryMemberType := h);
  }

  method SerializeArrayListDefinition(output: Output, context: Context)
    modifies output, context
    ensures Emitted(output, context, EmitArrayListDefinition(true, old(context.Bookkeeping())))
  {
    if context.definitions.arrayList != 0 {
      WriteSharedDefinition(output, context.definitions.arrayList);
      var _ := context.GetInstance();
      return;
    }
    ghost var f := ARRAY_LIST_FIELDS;
    ghost var parts := ClassParts(ARRAY_LIST_CLASS, ARRAY_LIST_UID, SC_SERIALIZABLE_WITH_WRITE_METHOD, f);
    ghost var goal := Sent(output.data, parts, 0);
    SentIsJoin(output.data, parts, 0);
    var rawData: Bytes := [0x78, 0x81, 0xD2, 0x1D, 0x99, 0xC7, 0x61, 0x9D, 0x03, 0x00, 0x01];
    assert rawData == parts[2];
    var h := BeginDefinition(output, context, ARRAY_LIST_CLASS, rawData, parts, goal);
    context.definitions := context.definitions.(arrayList := h);

    SendNext(output.data, parts, 3);
    SerializeArrayListFields(output, f);
    EndDefinition(output, parts, goal);
    h := context.GetInstance();
  }

  method SerializeArrayListFields(output: Output, ghost f: seq<FieldWire>)
    requires |f| == 1 && f[0] == PrimitiveField(FIELD_INT, Ascii("size"))
    modifies output
    ensures output.data == old(output.data) + Join(FieldParts(f), 0)
  {
    ghost var goal := output.data + Join(FieldParts(f), 0);
    SentIsJoin(output.data, FieldParts(f), 0);
    WritePrimitiveField(output, Ascii("size"), FIELD_INT, f, 0, goal);
  }

  method SerializeLeafDefinition(output: Output, context: Context)
    modifies output, context
    ensures Emitted(output, context, EmitLeafDefinition(true, old(context.Bookkeeping())))
  {
    hide Join, FieldParts, Utf;
    if context.definitions.treeLeaf != 0 {
      WriteSharedDefinition(output, context.definitions.treeLeaf);
      return;
    }
    ghost var f := LeafFields(true, context.definitions);
    ghost var parts := ClassParts(LEAF_CLASS, LEAF_UID, SC_SERIALIZABLE, f);
    ghost var goal := Sent(output.data, parts, 0);
    SentIsJoin(output.data, parts, 0);
    var rawData: Bytes := [0x7A, 0xCE, 0xD8, 0x4D, 0x24, 0x27, 0x12, 0xD7, 0x02, 0x00, 0x08];
    assert rawData == parts[2];
    var h := BeginDefinition(output, context, LEAF_CLASS, rawData, parts, goal);
    context.definitions := context.definitions.(treeLeaf := h);

    SendNext(output.data, parts, 3);
    SerializeLeafFields(output, context, f);
    EndDefinition(output, parts, goal);
  }

  method SerializeLeafFields(output: Output, context: Context, ghost f: seq<FieldWire>)
    requires |f| == 8
    requires f[0] == Boolean("compressed") && f[1] == Long("compressedSize") && f[2] == Boolean("deleted")
    requires f[3] == Long("size") && f[4] == Boolean("updated")
    requires f[5] == SharedTypeField(Ascii("name"), STRING_TYPE, context.definitions.stringType)
    requires f[6] == SharedTypeField(Ascii("parent"), DIRECTORY_TYPE, context.definitions.treeDirectoryMemberType)
    requires f[7] == SharedTypeField(Ascii("sha1"), STRING_TYPE, context.definitions.stringType)
    modifies output
    ensures output.data == old(output.data) + Join(FieldParts(f), 0)
  {
    hide Join, FieldParts, Utf, BigEndian, Ascii;
    ghost var goal := output.data + Join(FieldParts(f), 0);
    SentIsJoin(output.data, FieldParts(f), 0);
    WritePrimitiveField(output, Ascii("compressed"), FIELD_BOOLEAN, f, 0, goal);
    WritePrimitiveField(output, Ascii("compressedSize"), FIELD_LONG, f, 1, goal);
    WritePrimitiveField(output, Ascii("deleted"), FIELD_BOOLEAN, f, 2, goal);
    WritePrimitiveField(output, Ascii("size"), FIELD_LONG, f, 3, goal);
    WritePrimitiveField(output, Ascii("updated"), FIELD_BOOLEAN, f, 4, goal);
    WriteSharedTypeField(output, Ascii("name"), context.definitions.stringType, f, 5, goal);
    WriteSharedTypeField(output, Ascii("parent"), context.definitions.treeDirectoryMemberType, f, 6, goal);
    WriteSharedTypeField(output, Ascii("sha1"), context.definitions.stringType, f, 7, goal);
  }

  /** The handle of the enclosing directory. */
  function Top(parents: seq<nat>): nat
    requires |parents| > 0
  {
    parents[|parents| - 1]
  }

  method SerializeLeaf(output: Output, context: Context, n: Node)
    requires n.Leaf? && |context.parents| > 0
    modifies output, context
    ensures Emitted(output, context, EmitLeaf(true, n, Top(old(context.parents)), old(context.Bookkeeping())))
  {
    hide EmitLeafDefinition, Join, LeafNumbers, LeafObjects;
    ghost var d := EmitLeafDefinition(true, context.Bookkeeping());
    ghost var parts := LeafParts(d.bytes, n, Top(context.parents));
    SentIsJoin(output.data, parts, 0);
    SendNext(output.data, parts, 0);
    SerializeLeafDefinition(output, context);
    var myInstance := context.GetInstance();
    SendNext(output.data, parts, 1);
    SerializeLeafNumbers(output, n);
    SendNext(output.data, parts, 2);
    SerializeLeafObjects(output, context, n);
  }

  method SerializeLeafNumbers(output: Output, n: Node)
    requires n.Leaf?
    modifies output
    ensures output.data == old(output.data) + Join(LeafNumbers(n), 0)
  {
    ghost var parts := LeafNumbers(n);
    SentIsJoin(output.data, parts, 0);
    SendNext(output.data, parts, 0);
    output.WriteBool(n.compressed);
    SendNext(output.data, parts, 1);
    output.WriteInt64(n.compressedSize);
    SendNext(output.data, parts, 2);
    output.WriteBool(n.deleted);
    SendNext(output.data, parts, 3);
    output.WriteInt64(n.size);
    SendNext(output.data, parts, 4);
    output.WriteBool(n.updated);
  }

  method SerializeLeafObjects(output: Output, context: Context, n: Node)
    requires n.Leaf? && |context.parents| > 0
    modifies output, context`instanceCount
    ensures output.data == old(output.data) + Join(LeafObjects(n, Top(context.parents)), 0)
    ensures context.instanceCount == old(context.instanceCount) + 2
  {
    ghost var parts := LeafObjects(n, Top(context.parents));
    SentIsJoin(output.data, parts, 0);
    SendNext(output.data, parts, 0);
    output.WriteString(n.name, TC_STRING);
    var _ := context.GetInstance();
    SendNext(output.data, parts, 1);
    WriteReference(output, Top(context.parents));
    SendNext(output.data, parts, 2);
    output.WriteString(n.sha1, TC_STRING);
    var _ := context.GetInstance();
  }

  method SerializeDirectory(output: Output, context: Context, n: Node)
    requires n.Directory? && |context.parents| > 0
    modifies output, context
    ensures Emitted(output, context, EmitDirectory(true, n, Top(old(context.parents)), old(context.Bookkeeping())))
    decreases n, 1
  {
    hide EmitDirectoryDefinition, EmitList, Join, Flags, DirectoryEnd;
    ghost var d := EmitDirectoryDefinition(true, context.Bookkeeping());
    ghost var l := EmitList(true, n, d.st.count, d.st.(count := d.st.count + 1));
    ghost var parts := DirectoryParts(d.bytes, l.bytes, n, Top(context.parents));
    SentIsJoin(output.data, parts, 0);
    SendNext(output.data, parts, 0);
    SerializeDirectoryDefinition(output, context);
    var myInstance := context.GetInstance();
    SendNext(output.data, parts, 1);
    SerializeFlags(output, n);
    SendNext(output.data, parts, 2);
    assert context.Bookkeeping() == d.st.(count := d.st.count + 1);
    SerializeList(output, context, n, myInstance);
    SendNext(output.data, parts, 3);
    SerializeDirectoryEnd(output, context, n);
    assert output.data == old(output.data) + Join(parts, 0);
  }

  /** The list field. The parent stack is back to what it was at the end. */
  method SerializeList(output: Output, context: Context, n: Node, myInstance: nat)
    requires n.Directory?
    modifies output, context
    ensures Emitted(output, context, EmitList(true, n, myInstance, old(context.Bookkeeping())))
    decreases n, 0
  {
    hide EmitArrayListDefinition, EmitAll, Join, ListHead;
    ghost var a := EmitArrayListDefinition(true, context.Bookkeeping());
    ghost var l := EmitAll(true, n.list, myInstance, a.st);
    ghost var parts := ListParts(a.bytes, l.bytes, n);
    SentIsJoin(output.data, parts, 0);
    SendNext(output.data, parts, 0);
    SerializeArrayListDefinition(output, context);
    SendNext(output.data, parts, 1);
    SerializeListHead(output, n);
    SendNext(output.data, parts, 2);
    context.parents := context.parents + [myInstance];
    SerializeChildren(output, context, n);
    context.parents := context.parents[..|context.parents| - 1];
    SendNext(output.data, parts, 3);
    output.PushBack(TC_ENDBLOCKDATA);
  }

  method SerializeFlags(output: Output, n: Node)
    requires n.Directory?
    modifies output
    ensures output.data == old(output.data) + Join(Flags(n), 0)
  {
    ghost var parts := Flags(n);
    SentIsJoin(output.data, parts, 0);
    SendNext(output.data, parts, 0);
    output.WriteBool(n.deleted);
    SendNext(output.data, parts, 1);
    output.WriteBool(n.hidden);
    SendNext(output.data, parts, 2);
    output.WriteBool(n.markAsAddon);
    SendNext(output.data, parts, 3);
    output.WriteBool(n.updated);
  }

  method SerializeListHead(output: Output, n: Node)
    requires n.Directory?
    modifies output
    ensures output.data == old(output.data) + Join(ListHead(n), 0)
  {
    ghost var parts := ListHead(n);
    SentIsJoin(output.data, parts, 0);
    SendNext(output.data, parts, 0);
    output.WriteInt32(|n.list|);
    SendNext(output.data, parts, 1);
    output.PushBack(TC_BLOCKDATA);
    SendNext(output.data, parts, 2);
    output.PushBack(0x04);
    SendNext(output.data, parts, 3);
    output.WriteInt32(|n.list|);
  }

  method SerializeDirectoryEnd(output: Output, context: Context, n: Node)
    requires n.Directory? && |context.parents| > 0
    modifies output, context`instanceCount
    ensures output.data == old(output.data) + Join(DirectoryEnd(n, Top(context.parents)), 0)
    ensures context.instanceCount == old(context.instanceCount) + 1
  {
    ghost var parts := DirectoryEnd(n, Top(context.parents));
    SentIsJoin(output.data, parts, 0);
    SendNext(output.data, parts, 0);
    output.WriteString(n.name, TC_STRING);
    var _ := context.GetInstance();
    SendNext(output.data, parts, 1);
    if Top(context.parents) != 0 {
      WriteReference(output, Top(context.parents));
    }
  }

  /** The loop over the children, between the push and the pop of the parent stack. */
  method SerializeChildren(output: Output, context: Context, n: Node)
    requires n.Directory? && |context.parents| > 0
    modifies output, context
    ensures Emitted(output, context, EmitAll(true, n.list, Top(old(context.parents)), old(context.Bookkeeping())))
    decreases n.list
  {
    ghost var parent := Top(context.parents);
    ghost var l := EmitAll(true, n.list, parent, context.Bookkeeping());
    ghost var goal := output.data + l.bytes;
    assert n.list[0..] == n.list;
    for i := 0 to |n.list|
      invariant context.parents == old(context.parents)
      invariant var rest := EmitAll(true, n.list[i..], parent, context.Bookkeeping());
                output.data + rest.bytes == goal && rest.st == l.st
    {
      ghost var first := Emit(true, n.list[i], parent, context.Bookkeeping());
      assert n.list[i..][1..] == n.list[i + 1..];
      Associates(output.data, first.bytes, EmitAll(true, n.list[i + 1..], parent, first.st).bytes);
      SerializeNode(output, context, n.list[i]);
    }
  }

  /** Dynamic dispatch over the two kinds of node. */
  method SerializeNode(output: Output, context: Context, n: Node)
    requires |context.parents| > 0
    modifies output, context
    ensures Emitted(output, context, Emit(true, n, Top(old(context.parents)), old(context.Bookkeeping())))
    decreases n, 2
  {
    match n
    case Leaf(_, _, _, _, _, _, _) => SerializeLeaf(output, context, n);
    case Directory(_, _, _, _, _, _) => SerializeDirectory(output, context, n);
  }
}
