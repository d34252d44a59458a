/** How many handles and bytes a tree takes. */
module SyncCounting {
  import opened Bytes
  import opened JavaStreamReader
  import opened SyncTree
  import opened SyncWire

  function Directories(n: Node): nat
    decreases n, 0
  {
    if n.Leaf? then 0 else 1 + DirectoriesIn(n.list)
  }

  function DirectoriesIn(list: seq<Node>): nat
    decreases list
  {
    if list == [] then 0 else Directories(list[0]) + DirectoriesIn(list[1..])
  }

  function Leaves(n: Node): nat
    decreases n, 0
  {
    if n.Leaf? then 1 else LeavesIn(n.list)
  }

  function LeavesIn(list: seq<Node>): nat
    decreases list
  {
    if list == [] then 0 else Leaves(list[0]) + LeavesIn(list[1..])
  }

  /** The bytes of all names and hashes of a tree. */
  function Text(n: Node): nat
    decreases n, 0
  {
    if n.Leaf? then |n.name| + |n.sha1| else |n.name| + TextIn(n.list)
  }

  function TextIn(list: seq<Node>): nat
    decreases list
  {
    if list == [] then 0 else Text(list[0]) + TextIn(list[1..])
  }

  /** Handles of a tree written with shared definitions into a fresh context: five for the two
      classes of a directory and the three type strings, three for every node, one for the class
      of a leaf. */
  function HandleCount(n: Node): nat {
    5 + 3 * (Directories(n) + Leaves(n)) + (if Leaves(n) > 0 then 1 else 0)
  }

  /** Of the handles a subtree with d directories and l leaves takes, those for definitions. */
  function DefinitionHandles(share: bool, defs: Definitions, d: nat, l: nat): nat {
    if share then
      (if d > 0 && defs.treeDirectory == 0 then 4 else 0)
      + (if d > 0 && defs.arrayList == 0 then 1 else 0)
      + (if l > 0 && defs.treeLeaf == 0 then 1 else 0)
    else
      5 * d + 4 * l
  }

  /** Which definitions are known after d directories and l leaves. */
  ghost predicate KnownAfter(defs: Definitions, defs': Definitions, d: nat, l: nat) {
    && (defs'.treeDirectory != 0 <==> defs.treeDirectory != 0 || d > 0)
    && (defs'.arrayList != 0 <==> defs.arrayList != 0 || d > 0)
    && (defs'.treeLeaf != 0 <==> defs.treeLeaf != 0 || l > 0)
  }

  ghost predicate Counted(share: bool, st: State, st': State, d: nat, l: nat) {
    && st'.count == st.count + 3 * (d + l) + DefinitionHandles(share, st.defs, d, l)
    && KnownAfter(st.defs, st'.defs, d, l)
  }

  lemma {:induction false} CountsNode(share: bool, n: Node, parent: nat, st: State)
    requires st.count > 0
    ensures Counted(share, st, Emit(share, n, parent, st).st, Directories(n), Leaves(n))
    decreases n, 1
  {
    if n.Directory? {
      CountsDirectory(share, n, parent, st);
    } else {
      hide Join, LeafParts, ClassParts, LeafFields;
    }
  }

  lemma {:induction false} CountsDirectory(share: bool, n: Node, parent: nat, st: State)
    requires n.Directory? && st.count > 0
    ensures Counted(share, st, EmitDirectory(share, n, parent, st).st, Directories(n), Leaves(n))
    decreases n, 0
  {
    hide Join, DirectoryParts, ListParts, ClassParts;
    var d := EmitDirectoryDefinition(share, st);
    var a := EmitArrayListDefinition(share, d.st.(count := d.st.count + 1));
    CountsAll(share, n.list, d.st.count, a.st);
  }

  lemma {:induction false} CountsAll(share: bool, list: seq<Node>, parent: nat, st: State)
    requires st.count > 0
    ensures Counted(share, st, EmitAll(share, list, parent, st).st, DirectoriesIn(list), LeavesIn(list))
    decreases list, 0
  {
    if list != [] {
      EmitsFirst(share, list, parent, st);
      hide Emit, EmitAll, Directories, Leaves, Counted;
      var first := Emit(share, list[0], parent, st).st;
      CountsNode(share, list[0], parent, st);
      CountedUp(share, st, first, Directories(list[0]), Leaves(list[0]));
      CountsAll(share, list[1..], parent, first);
      CountsAdd(share, st, first, EmitAll(share, list[1..], parent, first).st, Directories(list[0]), Leaves(list[0]),
                DirectoriesIn(list[1..]), LeavesIn(list[1..]));
    }
  }

  lemma EmitsFirst(share: bool, list: seq<Node>, parent: nat, st: State)
    requires list != []
    ensures var first := Emit(share, list[0], parent, st);
            var rest := EmitAll(share, list[1..], parent, first.st);
            EmitAll(share, list, parent, st) == Emission(first.bytes + rest.bytes, rest.st)
  {
    hide Emit;
  }

  lemma CountedUp(share: bool, st0: State, st1: State, d: nat, l: nat)
    requires st0.count > 0 && Counted(share, st0, st1, d, l)
    ensures st1.count > 0
  {}

  lemma CountsAdd(share: bool, st0: State, st1: State, st2: State, d1: nat, l1: nat, d2: nat, l2: nat)
    requires Counted(share, st0, st1, d1, l1) && Counted(share, st1, st2, d2, l2)
    ensures Counted(share, st0, st2, d1 + d2, l1 + l2)
  {}

  /** A tree leaves the counter of a fresh context at the base handle plus its handle count. */
  lemma FreshCount(n: Node, parent: nat)
    requires n.Directory?
    ensures Emit(true, n, parent, FRESH).st.count == BASE_WIRE_HANDLE + HandleCount(n)
    ensures Emit(false, n, parent, FRESH).st.count == BASE_WIRE_HANDLE + 8 * Directories(n) + 7 * Leaves(n)
  {
    CountsNode(true, n, parent, FRESH);
    CountsNode(false, n, parent, FRESH);
  }

  /** Of the bytes a subtree with d directories and l leaves takes, those that a full definition
      takes more than a reference to it. */
  function DefinitionBytes(defs: Definitions, d: nat, l: nat): nat {
    (if d > 0 && defs.treeDirectory == 0 then 214 else 0)
    + (if d > 0 && defs.arrayList == 0 then 37 else 0)
    + (if l > 0 && defs.treeLeaf == 0 then 147 else 0)
  }

  /** Length of the stream of a tree after the header, the closing TC_NULL included. */
  function StreamLength(n: Node): nat {
    247 + 35 * Directories(n) + 36 * Leaves(n) + Text(n) + (if Leaves(n) > 0 then 147 else 0)
  }

  lemma DefinitionLengths(st: State)
    ensures |EmitDirectoryDefinition(true, st).bytes| == if st.defs.treeDirectory == 0 then 220 else 6
    ensures |EmitArrayListDefinition(true, st).bytes| == if st.defs.arrayList == 0 then 43 else 6
    ensures |EmitLeafDefinition(true, st).bytes| == if st.defs.treeLeaf == 0 then 153 else 6
  {
    DirectoryFieldsLength();
    LeafFieldsLength(st.defs);
    hide BigEndian, Ascii, FieldParts, LeafFields, Join;
    ClassLength(DIRECTORY_CLASS, DIRECTORY_UID, SC_SERIALIZABLE, DIRECTORY_FIELDS);
    ClassLength(ARRAY_LIST_CLASS, ARRAY_LIST_UID, SC_SERIALIZABLE_WITH_WRITE_METHOD, ARRAY_LIST_FIELDS);
    ClassLength(LEAF_CLASS, LEAF_UID, SC_SERIALIZABLE, LeafFields(true, st.defs));
  }

  lemma ClassLength(name: Bytes, uid: Bytes, flags: byte, fields: seq<FieldWire>)
    ensures |Join(ClassParts(name, uid, flags, fields), 0)|
         == 9 + |name| + |uid| + |Join(FieldParts(fields), 0)|
  {
    hide BigEndian, FieldParts, Join;
    var parts := ClassParts(name, uid, flags, fields);
    JoinLength(parts, 0);
    JoinLength(parts, 1);
    JoinLength(parts, 2);
    JoinLength(parts, 3);
    JoinLength(parts, 4);
  }

  lemma JoinLength(parts: seq<Bytes>, k: nat)
    requires k < |parts|
    ensures |Join(parts, k)| == |parts[k]| + |Join(parts, k + 1)|
    ensures Join(parts, |parts|) == []
  {}

  lemma JoinOfSeven(f: seq<Bytes>)
    requires |f| >= 7
    ensures |Join(f, 0)| == |f[0]| + |f[1]| + |f[2]| + |f[3]| + |f[4]| + |f[5]| + |f[6]| + |Join(f, 7)|
  {
    hide Join;
    JoinLength(f, 0);
    JoinLength(f, 1);
    JoinLength(f, 2);
    JoinLength(f, 3);
    JoinLength(f, 4);
    JoinLength(f, 5);
    JoinLength(f, 6);
  }

  lemma DirectoryFieldsLength()
    ensures |Join(FieldParts(DIRECTORY_FIELDS), 0)| == 157
    ensures |Join(FieldParts(ARRAY_LIST_FIELDS), 0)| == 7
  {
    hide BigEndian, Ascii, Join;
    JoinOfSeven(FieldParts(DIRECTORY_FIELDS));
    JoinLength(FieldParts(DIRECTORY_FIELDS), 6);
    JoinLength(FieldParts(ARRAY_LIST_FIELDS), 0);
  }

  lemma LeafFieldsLength(d: Definitions)
    ensures |Join(FieldParts(LeafFields(true, d)), 0)| == 95
  {
    hide BigEndian, Ascii, Join;
    JoinOfSeven(FieldParts(LeafFields(true, d)));
    JoinLength(FieldParts(LeafFields(true, d)), 7);
  }

  /** Bytes of a subtree below a directory. */
  ghost predicate Measured(st: State, bytes: Bytes, d: nat, l: nat, text: nat) {
    |bytes| == 35 * d + 36 * l + text + DefinitionBytes(st.defs, d, l)
  }

  lemma {:induction false} MeasuresNode(n: Node, parent: nat, st: State)
    requires st.count > 0 && parent != 0
    ensures Measured(st, Emit(true, n, parent, st).bytes, Directories(n), Leaves(n), Text(n))
    decreases n, 2
  {
    if n.Directory? {
      MeasuresDirectory(n, parent, st);
    } else {
      DefinitionLengths(st);
      hide EmitLeafDefinition, Join, LeafNumbers, LeafObjects, BigEndian;
      var parts := LeafParts(EmitLeafDefinition(true, st).bytes, n, parent);
      JoinLength(parts, 0);
      JoinLength(parts, 1);
      JoinLength(parts, 2);
      LeafLength(n, parent);
    }
  }

  lemma LeafLength(n: Node, parent: nat)
    requires n.Leaf?
    ensures |Join(LeafNumbers(n), 0)| == 19 && |Join(LeafObjects(n, parent), 0)| == 11 + |n.name| + |n.sha1|
  {
    hide BigEndian, Join;
    var parts := LeafNumbers(n);
    JoinLength(parts, 0);
    JoinLength(parts, 1);
    JoinLength(parts, 2);
    JoinLength(parts, 3);
    JoinLength(parts, 4);
    var objects := LeafObjects(n, parent);
    JoinLength(objects, 0);
    JoinLength(objects, 1);
    JoinLength(objects, 2);
  }

  lemma DirectoryPiecesLength(n: Node, parent: nat)
    requires n.Directory?
    ensures |Join(Flags(n), 0)| == 4 && |Join(ListHead(n), 0)| == 10
    ensures |Join(DirectoryEnd(n, parent), 0)| == 3 + |n.name| + (if parent != 0 then 5 else 0)
  {
    hide BigEndian, Join;
    JoinLength(Flags(n), 0);
    JoinLength(Flags(n), 1);
    JoinLength(Flags(n), 2);
    JoinLength(Flags(n), 3);
    JoinLength(ListHead(n), 0);
    JoinLength(ListHead(n), 1);
    JoinLength(ListHead(n), 2);
    JoinLength(ListHead(n), 3);
    JoinLength(DirectoryEnd(n, parent), 0);
    JoinLength(DirectoryEnd(n, parent), 1);
  }

  lemma {:induction false} MeasuresDirectory(n: Node, parent: nat, st: State)
    requires n.Directory? && st.count > 0
    ensures var bytes := EmitDirectory(true, n, parent, st).bytes;
            |bytes| + (if parent != 0 then 0 else 5)
            == 35 * Directories(n) + 36 * Leaves(n) + Text(n) + DefinitionBytes(st.defs, Directories(n), Leaves(n))
    decreases n, 1
  {
    hide Join, Flags, DirectoryEnd, EmitList, EmitDirectoryDefinition, EmitArrayListDefinition, BigEndian;
    var d := EmitDirectoryDefinition(true, st);
    var st1 := d.st.(count := d.st.count + 1);
    var l := EmitList(true, n, d.st.count, st1);
    DefinitionLengths(st);
    DefinitionsKeepOthers(st, st1);
    MeasuresList(n, d.st.count, st1);
    DirectoryPiecesLength(n, parent);
    var parts := DirectoryParts(d.bytes, l.bytes, n, parent);
    JoinLength(parts, 0);
    JoinLength(parts, 1);
    JoinLength(parts, 2);
    JoinLength(parts, 3);
  }

  lemma DefinitionsKeepOthers(st: State, st1: State)
    ensures EmitDirectoryDefinition(true, st).st.defs.treeLeaf == st.defs.treeLeaf
    ensures EmitDirectoryDefinition(true, st).st.defs.arrayList == st.defs.arrayList
    ensures st.count > 0 ==> EmitDirectoryDefinition(true, st).st.defs.treeDirectory != 0
    ensures EmitArrayListDefinition(true, st1).st.defs.treeLeaf == st1.defs.treeLeaf
    ensures EmitArrayListDefinition(true, st1).st.defs.treeDirectory == st1.defs.treeDirectory
    ensures st1.count > 0 ==> EmitArrayListDefinition(true, st1).st.defs.arrayList != 0
    ensures EmitDirectoryDefinition(true, st).st.count >= st.count
    ensures EmitArrayListDefinition(true, st1).st.count >= st1.count
  {}

  lemma {:induction false} MeasuresList(n: Node, self: nat, st: State)
    requires n.Directory? && st.count > 0 && self != 0 && st.defs.treeDirectory != 0
    ensures |EmitList(true, n, self, st).bytes|
         == 17 + 35 * DirectoriesIn(n.list) + 36 * LeavesIn(n.list) + TextIn(n.list)
            + (if st.defs.arrayList == 0 then 37 else 0)
            + (if st.defs.treeLeaf == 0 && LeavesIn(n.list) > 0 then 147 else 0)
    decreases n, 0
  {
    hide Join, ListHead, EmitArrayListDefinition, EmitDirectoryDefinition, EmitAll, BigEndian;
    var a := EmitArrayListDefinition(true, st);
    var l := EmitAll(true, n.list, self, a.st);
    DefinitionLengths(st);
    DefinitionsKeepOthers(st, st);
    MeasuresAll(n.list, self, a.st);
    DirectoryPiecesLength(n, self);
    var parts := ListParts(a.bytes, l.bytes, n);
    JoinLength(parts, 0);
    JoinLength(parts, 1);
    JoinLength(parts, 2);
    JoinLength(parts, 3);
  }

  lemma {:induction false} MeasuresAll(list: seq<Node>, parent: nat, st: State)
    requires st.count > 0 && parent != 0
    ensures Measured(st, EmitAll(true, list, parent, st).bytes, DirectoriesIn(list), LeavesIn(list), TextIn(list))
    decreases list, 0
  {
    if list != [] {
      EmitsFirst(true, list, parent, st);
      hide Emit, EmitAll, Directories, Leaves, Text, Counted, Measured;
      var first := Emit(true, list[0], parent, st);
      CountsNode(true, list[0], parent, st);
      CountedUp(true, st, first.st, Directories(list[0]), Leaves(list[0]));
      MeasuresNode(list[0], parent, st);
      MeasuresAll(list[1..], parent, first.st);
      MeasuresAdd(st, first.st, first.bytes, EmitAll(true, list[1..], parent, first.st).bytes,
                  Directories(list[0]), Leaves(list[0]), Text(list[0]),
                  DirectoriesIn(list[1..]), LeavesIn(list[1..]), TextIn(list[1..]));
    }
  }

  lemma MeasuresAdd(st: State, st1: State, a: Bytes, b: Bytes,
                    d1: nat, l1: nat, text1: nat, d2: nat, l2: nat, text2: nat)
    requires st.count > 0 && Counted(true, st, st1, d1, l1)
    requires Measured(st, a, d1, l1, text1) && Measured(st1, b, d2, l2, text2)
    ensures Measured(st, a + b, d1 + d2, l1 + l2, text1 + text2)
  {}

  /** The exact length of a stream. */
  lemma FreshLength(n: Node)
    requires n.Directory?
    ensures |Emit(true, n, 0, FRESH).bytes + [TC_NULL]| == StreamLength(n)
  {
    MeasuresDirectory(n, 0, FRESH);
  }
}
