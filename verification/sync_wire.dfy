/** The bytes the writer sends, as a function of the tree and of the writer's own bookkeeping.
    With `share` off this is the simple writer that sends every class descriptor in full. */
module SyncWire {
  import opened Bytes
  import opened JavaStreamReader
  import opened SyncTree

  /** Handle of the first occurrence of each item, 0 before it occurs. */
  datatype Definitions = Definitions(
    treeDirectory: nat, treeDirectoryMemberType: nat, treeLeaf: nat, list: nat, arrayList: nat, stringType: nat)

  datatype State = State(count: nat, defs: Definitions)

  const FRESH := State(BASE_WIRE_HANDLE, Definitions(0, 0, 0, 0, 0, 0))

  datatype Emission = Emission(bytes: Bytes, st: State)

  function Utf(b: Bytes): Bytes { BigEndian(|b|, 2) + b }

  function StringBytes(b: Bytes): Bytes { [TC_STRING] + Utf(b) }

  function ReferenceBytes(handle: nat): Bytes { [TC_REFERENCE] + BigEndian(handle, 4) }

  function BoolByte(b: bool): byte { if b then 1 else 0 }

  /** A field as written: its type is absent, new, or a reference to an earlier occurrence. */
  datatype FieldWire =
    | PrimitiveField(code: byte, name: Bytes)
    | NewTypeField(name: Bytes, typeName: Bytes)
    | SharedTypeField(name: Bytes, typeName: Bytes, handle: nat)
  {
    function Encoded(): Bytes {
      match this
      case PrimitiveField(_, _) => [code] + Utf(name)
      case NewTypeField(_, _) => ([FIELD_OBJECT] + Utf(name)) + StringBytes(typeName)
      case SharedTypeField(_, _, _) => ([FIELD_OBJECT] + Utf(name)) + ReferenceBytes(handle)
    }

    function Meaning(): FieldDesc {
      if PrimitiveField? then FieldDesc(code, name, []) else FieldDesc(FIELD_OBJECT, name, typeName)
    }

    /** The handles a reader assigns while it reads the field. */
    function Assigned(): Table {
      if NewTypeField? then [StringEntry(typeName)] else []
    }
  }

  function FieldParts(fields: seq<FieldWire>): (parts: seq<Bytes>)
    ensures |parts| == |fields|
    ensures forall k | 0 <= k < |fields| :: parts[k] == fields[k].Encoded()
  {
    seq(|fields|, k requires 0 <= k < |fields| => fields[k].Encoded())
  }

  /** What a reader makes of the fields from number k on. */
  function FieldsMeaning(fields: seq<FieldWire>, k: nat): seq<FieldDesc>
    decreases |fields| - k
  {
    if k >= |fields| then [] else [fields[k].Meaning()] + FieldsMeaning(fields, k + 1)
  }

  /** The handles a reader assigns while it reads the fields from number k on. */
  function FieldsAssigned(fields: seq<FieldWire>, k: nat): Table
    decreases |fields| - k
  {
    if k >= |fields| then [] else fields[k].Assigned() + FieldsAssigned(fields, k + 1)
  }

  /** newClassDesc with no annotation and no superclass, after TC_OBJECT. */
  function ClassParts(name: Bytes, uid: Bytes, flags: byte, fields: seq<FieldWire>): seq<Bytes> {
    [[TC_OBJECT], [TC_CLASSDESC] + Utf(name), uid + [flags] + BigEndian(|fields|, 2), Join(FieldParts(fields), 0),
     [TC_ENDBLOCKDATA, TC_NULL]]
  }

  function Boolean(name: string): FieldWire { PrimitiveField(FIELD_BOOLEAN, Ascii(name)) }
  function Long(name: string): FieldWire { PrimitiveField(FIELD_LONG, Ascii(name)) }

  /** The definition of SyncTreeDirectory introduces the type strings List, String and SyncTreeDirectory. */
  const DIRECTORY_FIELDS :=
    [Boolean("deleted"), Boolean("hidden"), Boolean("markAsAddon"), Boolean("updated"),
     NewTypeField(Ascii("list"), LIST_TYPE), NewTypeField(Ascii("name"), STRING_TYPE),
     NewTypeField(Ascii("parent"), DIRECTORY_TYPE)]

  const ARRAY_LIST_FIELDS := [PrimitiveField(FIELD_INT, Ascii("size"))]

  function LeafTypeField(share: bool, name: string, typeName: Bytes, handle: nat): FieldWire {
    if share then SharedTypeField(Ascii(name), typeName, handle) else NewTypeField(Ascii(name), typeName)
  }

  function LeafFields(share: bool, defs: Definitions): seq<FieldWire> {
    [Boolean("compressed"), Long("compressedSize"), Boolean("deleted"), Long("size"), Boolean("updated"),
     LeafTypeField(share, "name", STRING_TYPE, defs.stringType),
     LeafTypeField(share, "parent", DIRECTORY_TYPE, defs.treeDirectoryMemberType),
     LeafTypeField(share, "sha1", STRING_TYPE, defs.stringType)]
  }

  function EmitDirectoryDefinition(share: bool, st: State): Emission {
    if share && st.defs.treeDirectory != 0 then
      Emission([TC_OBJECT] + ReferenceBytes(st.defs.treeDirectory), st)
    else
      Emission(Join(ClassParts(DIRECTORY_CLASS, DIRECTORY_UID, SC_SERIALIZABLE, DIRECTORY_FIELDS), 0),
               State(st.count + 4,
                     st.defs.(treeDirectory := st.count, list := st.count + 1, stringType := st.count + 2,
                              treeDirectoryMemberType := st.count + 3)))
  }

  /** Also counts the handle of the list object itself. */
  function EmitArrayListDefinition(share: bool, st: State): Emission {
    if share && st.defs.arrayList != 0 then
      Emission([TC_OBJECT] + ReferenceBytes(st.defs.arrayList), st.(count := st.count + 1))
    else
      Emission(Join(ClassParts(ARRAY_LIST_CLASS, ARRAY_LIST_UID, SC_SERIALIZABLE_WITH_WRITE_METHOD, ARRAY_LIST_FIELDS),
                    0),
               State(st.count + 2, st.defs.(arrayList := st.count)))
  }

  function EmitLeafDefinition(share: bool, st: State): Emission {
    if share && st.defs.treeLeaf != 0 then
      Emission([TC_OBJECT] + ReferenceBytes(st.defs.treeLeaf), st)
    else
      Emission(Join(ClassParts(LEAF_CLASS, LEAF_UID, SC_SERIALIZABLE, LeafFields(share, st.defs)), 0),
               State(st.count + (if share then 1 else 4), st.defs.(treeLeaf := st.count)))
  }

  /** The primitive values of a leaf. */
  function LeafNumbers(n: Node): seq<Bytes>
    requires n.Leaf?
  {
    [[BoolByte(n.compressed)], BigEndian(n.compressedSize, 8), [BoolByte(n.deleted)], BigEndian(n.size, 8),
     [BoolByte(n.updated)]]
  }

  function LeafObjects(n: Node, parent: nat): seq<Bytes>
    requires n.Leaf?
  {
    [StringBytes(n.name), ReferenceBytes(parent), StringBytes(n.sha1)]
  }

  function LeafParts(definition: Bytes, n: Node, parent: nat): seq<Bytes>
    requires n.Leaf?
  {
    [definition, Join(LeafNumbers(n), 0), Join(LeafObjects(n, parent), 0)]
  }

  /** The primitive values of a directory. */
  function Flags(n: Node): seq<Bytes>
    requires n.Directory?
  {
    [[BoolByte(n.deleted)], [BoolByte(n.hidden)], [BoolByte(n.markAsAddon)], [BoolByte(n.updated)]]
  }

  /** The size of the list as its field, and again as block data. */
  function ListHead(n: Node): seq<Bytes>
    requires n.Directory?
  {
    [BigEndian(|n.list|, 4), [TC_BLOCKDATA], [4], BigEndian(|n.list|, 4)]
  }

  function ListParts(definition: Bytes, children: Bytes, n: Node): seq<Bytes>
    requires n.Directory?
  {
    [definition, Join(ListHead(n), 0), children, [TC_ENDBLOCKDATA]]
  }

  function ParentBytes(parent: nat): Bytes {
    if parent != 0 then ReferenceBytes(parent) else []
  }

  /** The name and the parent field; the root's parent field is left to the caller. */
  function DirectoryEnd(n: Node, parent: nat): seq<Bytes>
    requires n.Directory?
  {
    [StringBytes(n.name), ParentBytes(parent)]
  }

  function DirectoryParts(definition: Bytes, list: Bytes, n: Node, parent: nat): seq<Bytes>
    requires n.Directory?
  {
    [definition, Join(Flags(n), 0), list, Join(DirectoryEnd(n, parent), 0)]
  }

  function EmitLeaf(share: bool, n: Node, parent: nat, st: State): Emission
    requires n.Leaf?
  {
    var d := EmitLeafDefinition(share, st);
    Emission(Join(LeafParts(d.bytes, n, parent), 0), d.st.(count := d.st.count + 3))
  }

  function EmitDirectory(share: bool, n: Node, parent: nat, st: State): Emission
    requires n.Directory?
    decreases n, 1
  {
    var d := EmitDirectoryDefinition(share, st);
    var l := EmitList(share, n, d.st.count, d.st.(count := d.st.count + 1));
    Emission(Join(DirectoryParts(d.bytes, l.bytes, n, parent), 0), l.st.(count := l.st.count + 1))
  }

  /** The list field of a directory whose handle is `self`. */
  function EmitList(share: bool, n: Node, self: nat, st: State): Emission
    requires n.Directory?
    decreases n, 0
  {
    var a := EmitArrayListDefinition(share, st);
    var l := EmitAll(share, n.list, self, a.st);
    Emission(Join(ListParts(a.bytes, l.bytes, n), 0), l.st)
  }

  function Emit(share: bool, n: Node, parent: nat, st: State): Emission
    decreases n, 2
  {
    if n.Leaf? then EmitLeaf(share, n, parent, st) else EmitDirectory(share, n, parent, st)
  }

  function EmitAll(share: bool, list: seq<Node>, parent: nat, st: State): Emission
    decreases list, 0
  {
    if list == [] then
      Emission([], st)
    else
      var first := Emit(share, list[0], parent, st);
      var rest := EmitAll(share, list[1..], parent, first.st);
      Emission(first.bytes + rest.bytes, rest.st)
  }
}
