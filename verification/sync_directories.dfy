/** Directories are read back with all that lies in them. */
module SyncDirectories {
  import opened Bytes
  import opened JavaStreamReader
  import opened SyncTree
  import opened SyncWire
  import opened SyncDefinitions
  import opened SyncNodes

  function FlagValues(n: Node): seq<Value>
    requires n.Directory?
  {
    [BoolValue(n.deleted), BoolValue(n.hidden), BoolValue(n.markAsAddon), BoolValue(n.updated)]
  }

  lemma ReadsFlags(s: Bytes, p: nat, t: Table, n: Node)
    requires n.Directory? && Has(s, p, Join(Flags(n), 0))
    ensures ReadValues(s, p, t, DIRECTORY_DESC.fields, 0)
         == Prefixed(FlagValues(n), ReadValues(s, p + |Join(Flags(n), 0)|, t, DIRECTORY_DESC.fields, 4))
  {
    hide Has, ReadValues, Ascii, BoolByte, Prefixed, Join;
    ReadsFourBools(s, p, t, DIRECTORY_DESC.fields, Flags(n), n.deleted, n.hidden, n.markAsAddon, n.updated);
  }

  lemma ReadsFourBools(s: Bytes, p: nat, t: Table, f: seq<FieldDesc>, parts: seq<Bytes>,
                       a: bool, b: bool, c: bool, d: bool)
    requires |f| >= 4 && forall i | 0 <= i < 4 :: f[i].code == FIELD_BOOLEAN
    requires parts == [[BoolByte(a)], [BoolByte(b)], [BoolByte(c)], [BoolByte(d)]] && Has(s, p, Join(parts, 0))
    ensures ReadValues(s, p, t, f, 0)
         == Prefixed([BoolValue(a), BoolValue(b), BoolValue(c), BoolValue(d)],
                     ReadValues(s, p + |Join(parts, 0)|, t, f, 4))
  {
    hide *;
    HasPart(s, p, parts, 0);
    ReadsBool(s, p, t, f, 0, a);
    HasPart(s, p + 1, parts, 1);
    ReadsBool(s, p + 1, t, f, 1, b);
    HasPart(s, p + 2, parts, 2);
    ReadsBool(s, p + 2, t, f, 2, c);
    HasPart(s, p + 3, parts, 3);
    ReadsBool(s, p + 3, t, f, 3, d);
    FourPrefixes(BoolValue(a), BoolValue(b), BoolValue(c), BoolValue(d), ReadValues(s, p + 4, t, f, 4));
  }

  lemma FourPrefixes(a: Value, b: Value, c: Value, d: Value, r: Parsed<seq<Value>>)
    ensures Prefixed([a], Prefixed([b], Prefixed([c], Prefixed([d], r)))) == Prefixed([a, b, c, d], r)
  {
    if r.Parsed? {
      assert [a] + ([b] + ([c] + ([d] + r.value))) == [a, b, c, d] + r.value;
    }
  }

  /** Every node takes three handles or more, so a list that is too long for its size field fills the table. */
  lemma {:induction false} HandlesGrow(share: bool, n: Node, parent: nat, st: State)
    ensures Emit(share, n, parent, st).st.count >= st.count + 3
    decreases n, 1
  {
    if n.Directory? {
      ListHandlesGrow(share, n, parent, st);
    }
  }

  lemma {:induction false} ListHandlesGrow(share: bool, n: Node, parent: nat, st: State)
    requires n.Directory?
    ensures EmitDirectory(share, n, parent, st).st.count >= st.count + 3
    decreases n, 0
  {
    hide EmitDirectoryDefinition, EmitArrayListDefinition, DirectoryParts, ListParts, Join;
    var d := EmitDirectoryDefinition(share, st);
    var d1 := d.st.(count := d.st.count + 1);
    var a := EmitArrayListDefinition(share, d1);
    DefinitionsTakeHandles(share, st, d1);
    AllHandlesGrow(share, n.list, d.st.count, a.st);
  }

  lemma DefinitionsTakeHandles(share: bool, st: State, st1: State)
    ensures EmitDirectoryDefinition(share, st).st.count >= st.count
    ensures EmitArrayListDefinition(share, st1).st.count >= st1.count + 1
  {}

  lemma {:induction false} AllHandlesGrow(share: bool, list: seq<Node>, parent: nat, st: State)
    ensures EmitAll(share, list, parent, st).st.count >= st.count + 3 * |list|
    decreases list, 0
  {
    if list != [] {
      HandlesGrow(share, list[0], parent, st);
      AllHandlesGrow(share, list[1..], parent, Emit(share, list[0], parent, st).st);
    }
  }

  /** What reading the contents of a list comes to. */
  ghost predicate ChildrenRead(r: Parsed<seq<Value>>, share: bool, st: State, t: Table, q: nat,
                               list: seq<Node>, parent: nat) {
    if st.count <= BASE_WIRE_HANDLE + MAX_HANDLES
    then r.Parsed? && r.pos == q && t <= r.table && Agree(share, st, r.table)
         && |r.value| == |list| && AllMean(r.value, parent, list)
    else r.Refused?
  }

  lemma {:induction false} ReadsChildren(share: bool, list: seq<Node>, parent: nat, st: State,
                                         s: Bytes, p: nat, t: Table)
    requires forall c | c in list :: StringsFit(c)
    requires Agree(share, st, t) && ObjectInTable(t, parent) && (share ==> st.defs.treeDirectory != 0)
    requires Has(s, p, EmitAll(share, list, parent, st).bytes)
    requires Has(s, p + |EmitAll(share, list, parent, st).bytes|, [TC_ENDBLOCKDATA])
    ensures var e := EmitAll(share, list, parent, st);
            ChildrenRead(ReadContents(s, p, t), share, e.st, t, p + |e.bytes| + 1, list, parent - BASE_WIRE_HANDLE)
    decreases list, 0
  {
    hide Has, Emit, ReadObject, ReadContents, StringsFit, DefinitionsAgree, Means;
    if list == [] {
      HasByte(s, p, TC_ENDBLOCKDATA);
      ContentsEnd(s, p, t);
    } else {
      var first := Emit(share, list[0], parent, st);
      var rest := EmitAll(share, list[1..], parent, first.st);
      HasSplit(s, p, first.bytes, rest.bytes);
      ReadsNode(share, list[0], parent, st, s, p, t);
      AllHandlesGrow(share, list[1..], parent, first.st);
      ContentsNext(s, p, t);
      var r := ReadObject(s, p, t);
      if r.Parsed? {
        StillDefined(share, first.st, t, r.table);
        ReadsChildren(share, list[1..], parent, first.st, s, p + |first.bytes|, r.table);
        ChildrenJoin(r, ReadContents(s, r.pos, r.table), list, parent - BASE_WIRE_HANDLE);
      }
    }
  }

  lemma ContentsEnd(s: Bytes, p: nat, t: Table)
    requires p < |s| && s[p] == TC_ENDBLOCKDATA
    ensures ReadContents(s, p, t) == Parsed([], p + 1, t)
  {}

  lemma ContentsNext(s: Bytes, p: nat, t: Table)
    requires p < |s| && s[p] == TC_OBJECT
    ensures var r := ReadObject(s, p, t);
            r.Refused? ==> ReadContents(s, p, t).Refused?
    ensures var r := ReadObject(s, p, t);
            r.Parsed? ==>
              var rest := ReadContents(s, r.pos, r.table);
              ReadContents(s, p, t)
              == if rest.Parsed? then Parsed([r.value] + rest.value, rest.pos, rest.table) else Refused
  {
    hide ReadObject;
  }

  lemma ChildrenJoin(r: Parsed<Value>, rest: Parsed<seq<Value>>, list: seq<Node>, parent: nat)
    requires r.Parsed? && list != [] && Means(r.value, Some(parent), list[0])
    ensures rest.Parsed? && AllMean(rest.value, parent, list[1..]) ==> AllMean([r.value] + rest.value, parent, list)
  {
    hide NodeOf, Fresh;
    if rest.Parsed? && AllMean(rest.value, parent, list[1..]) {
      assert ([r.value] + rest.value)[1..] == rest.value;
      assert [list[0]] + list[1..] == list;
    }
  }

  lemma StillDefined(share: bool, st: State, t: Table, u: Table)
    requires Agree(share, st, u) && t <= u && t != []
    ensures share ==> st.defs.treeDirectory != 0
  {}

  /** The kind of node decides. */
  lemma {:induction false} ReadsNode(share: bool, n: Node, parent: nat, st: State, s: Bytes, p: nat, t: Table)
    requires StringsFit(n)
    requires Agree(share, st, t) && (share ==> st.defs.treeDirectory != 0) && ObjectInTable(t, parent)
    requires Has(s, p, Emit(share, n, parent, st).bytes)
    ensures p < |s| && s[p] == TC_OBJECT
    ensures var e := Emit(share, n, parent, st);
            NodeRead(ReadObject(s, p, t), share, e.st, t, p + |e.bytes|, n, Some(parent - BASE_WIRE_HANDLE))
    decreases n, 4
  {
    hide Has, EmitLeaf, EmitDirectory, ReadObject, StringsFit, DefinitionsAgree, Means;
    if n.Leaf? {
      ReadsLeaf(share, n, parent, st, s, p, t);
    } else {
      HasNothing(s, p, EmitDirectory(share, n, parent, st).bytes);
      ReadsDirectory(share, n, parent, st, s, p, t);
    }
  }

  lemma HasNothing(s: Bytes, p: nat, before: Bytes)
    requires Has(s, p, before)
    ensures Has(s, p + |before|, [])
  {}

  /** Where the parent of a directory is; 0 is the root. */
  function ParentOf(parent: nat): Option<nat> {
    if parent == 0 then None else if parent >= BASE_WIRE_HANDLE then Some(parent - BASE_WIRE_HANDLE) else None
  }

  /** The end of a directory: for the root the caller has sent TC_NULL after it. */
  function DirectoryTail(parent: nat): Bytes {
    if parent == 0 then [TC_NULL] else []
  }

  /** What reading a list field comes to. */
  ghost predicate ListRead(r: Parsed<Value>, share: bool, st: State, t: Table, q: nat, n: Node, self: nat)
    requires n.Directory?
  {
    if st.count <= BASE_WIRE_HANDLE + MAX_HANDLES
    then r.Parsed? && r.pos == q && t <= r.table && Agree(share, st, r.table)
         && r.value.ObjectValue? && IsArrayList(r.value) && AllMean(r.value.annotation[1..], self, n.list)
    else r.Refused?
  }

  lemma ReadsListHead(s: Bytes, p: nat, t: Table, n: Node)
    requires n.Directory? && Has(s, p, Join(ListHead(n), 0))
    ensures |Join(ListHead(n), 0)| == 10
    ensures ReadValues(s, p, t, ARRAY_LIST_DESC.fields, 0)
         == Parsed([IntValue(Signed(BigEndian(|n.list|, 4)))], p + 4, t)
    ensures ReadContents(s, p + 4, t)
         == Prefixed([BlockValue(BigEndian(|n.list|, 4))], ReadContents(s, p + 10, t))
  {
    hide BigEndian, Signed, Join, Ascii;
    var parts := ListHead(n);
    HasPart(s, p, parts, 0);
    HasPart(s, p + 4, parts, 1);
    HasByte(s, p + 4, TC_BLOCKDATA);
    HasPart(s, p + 5, parts, 2);
    HasPart(s, p + 6, parts, 3);
    NoMoreFields(s, p + 4, t, ARRAY_LIST_DESC.fields);
    assert [IntValue(Signed(BigEndian(|n.list|, 4)))] + [] == [IntValue(Signed(BigEndian(|n.list|, 4)))];
    assert ReadValue(s, p, t, FIELD_INT) == Parsed(IntValue(Signed(BigEndian(|n.list|, 4))), p + 4, t);
  }

  lemma ArrayListKeeps(share: bool, st: State)
    ensures EmitArrayListDefinition(share, st).st.defs.treeDirectory == st.defs.treeDirectory
    ensures EmitArrayListDefinition(share, st).st.count > st.count
  {}

  lemma SizeIsKept(n: Node)
    requires n.Directory? && |n.list| < 0x8000_0000
    ensures Signed(BigEndian(|n.list|, 4)) == |n.list|
  {
    Pow256Values();
    SignedBigEndian(|n.list|, 4);
  }

  /** The value of the list field of the directory with wire handle `self`. */
  lemma {:induction false} ReadsList(share: bool, n: Node, self: nat, st: State, s: Bytes, p: nat, t: Table)
    requires n.Directory? && StringsFit(n)
    requires Agree(share, st, t) && ObjectInTable(t, self) && (share ==> st.defs.treeDirectory != 0)
    requires Has(s, p, EmitList(share, n, self, st).bytes)
    ensures var e := EmitList(share, n, self, st);
            ListRead(ReadObject(s, p, t), share, e.st, t, p + |e.bytes|, n, self - BASE_WIRE_HANDLE)
    decreases n, 1
  {
    hide Has, Join, ListHead, EmitArrayListDefinition, EmitAll, ReadClassDesc, ReadValues, ReadContents, BigEndian,
      Signed,
         DefinitionsAgree, StringsFit, Ascii, AllMean;
    var a := EmitArrayListDefinition(share, st);
    var l := EmitAll(share, n.list, self, a.st);
    var parts := ListParts(a.bytes, l.bytes, n);
    HasPart(s, p, parts, 0);
    var p1 := p + |a.bytes|;
    HasPart(s, p1, parts, 1);
    ReadsArrayListDefinition(share, st, s, p, t);
    ArrayListKeeps(share, st);
    AllHandlesGrow(share, n.list, self, a.st);
    var r := ReadClassDesc(s, p + 1, t);
    if a.st.count <= BASE_WIRE_HANDLE + MAX_HANDLES {
      var t2 := r.table + [ObjectEntry(ARRAY_LIST_CLASS)];
      AgreeMore(share, a.st.(count := a.st.count - 1), r.table, ObjectEntry(ARRAY_LIST_CLASS));
      ReadsListHead(s, p1, t2, n);
      HasPart(s, p1 + 10, parts, 2);
      HasPart(s, p1 + 10 + |l.bytes|, parts, 3);
      ChildrenFit(n);
      ReadsChildren(share, n.list, self, a.st, s, p1 + 10, t2);
      if l.st.count <= BASE_WIRE_HANDLE + MAX_HANDLES {
        SizeIsKept(n);
        ListIsMeant(ReadContents(s, p1 + 10, t2).value, n, |r.table|, self - BASE_WIRE_HANDLE);
      }
    }
  }

  lemma ChildrenFit(n: Node)
    requires n.Directory? && StringsFit(n)
    ensures forall c | c in n.list :: StringsFit(c)
  {}

  lemma ListIsMeant(children: seq<Value>, n: Node, h: nat, self: nat)
    requires n.Directory? && |children| == |n.list| && AllMean(children, self, n.list)
    ensures var v := ObjectValue(h, ARRAY_LIST_DESC, [IntValue(|n.list|)],
                                 [BlockValue(BigEndian(|n.list|, 4))] + children);
            IsArrayList(v) && AllMean(v.annotation[1..], self, n.list)
  {
    hide BigEndian, AllMean, Ascii;
    assert ([BlockValue(BigEndian(|n.list|, 4))] + children)[1..] == children;
  }

  function ParentValue(parent: nat): Value {
    if parent >= BASE_WIRE_HANDLE then ReferenceValue(parent - BASE_WIRE_HANDLE) else NullValue
  }

  lemma TwoPrefixes(a: Value, b: Value, q: nat, u: Table)
    ensures Prefixed([a], Prefixed([b], Parsed([], q, u))) == Parsed([a, b], q, u)
  {
    assert [a] + ([b] + []) == [a, b];
  }

  lemma ReadsParent(s: Bytes, p: nat, t: Table, parent: nat)
    requires |t| <= MAX_HANDLES && (parent != 0 ==> ObjectInTable(t, parent))
    requires Has(s, p, ParentBytes(parent)) && Has(s, p + |ParentBytes(parent)|, DirectoryTail(parent))
    ensures ReadObject(s, p, t)
         == Parsed(ParentValue(parent), p + |ParentBytes(parent)| + |DirectoryTail(parent)|, t)
  {
    hide Has, ReferenceBytes;
    if parent == 0 {
      HasByte(s, p, TC_NULL);
    } else {
      ReadsParentValue(s, p, t, parent);
    }
  }

  /** The name and the parent of a directory; the root's null parent comes from the caller. */
  lemma ReadsDirectoryEnd(s: Bytes, p: nat, t: Table, n: Node, parent: nat, f: seq<FieldDesc>)
    requires |f| == 7 && f[5].code == FIELD_OBJECT && f[6].code == FIELD_OBJECT
    requires n.Directory? && StringFits(n.name) && |t| <= MAX_HANDLES
    requires parent != 0 ==> ObjectInTable(t, parent)
    requires Has(s, p, Join(DirectoryEnd(n, parent), 0))
    requires Has(s, p + |Join(DirectoryEnd(n, parent), 0)|, DirectoryTail(parent))
    ensures ReadValues(s, p, t, f, 5)
         == if |t| < MAX_HANDLES
            then Parsed([StringValue(|t|, n.name), ParentValue(parent)],
                        p + |Join(DirectoryEnd(n, parent), 0)| + |DirectoryTail(parent)|, t + [StringEntry(n.name)])
            else Refused
  {
    hide Has, Join, DirectoryEnd, StringBytes, ParentBytes, ReadValues, DirectoryTail, ParentValue;
    DirectoryEndParts(s, p, n, parent);
    ReadsNameAndParent(s, p, t, n.name, parent, f);
  }

  lemma DirectoryEndParts(s: Bytes, p: nat, n: Node, parent: nat)
    requires n.Directory? && Has(s, p, Join(DirectoryEnd(n, parent), 0))
    ensures |Join(DirectoryEnd(n, parent), 0)| == |StringBytes(n.name)| + |ParentBytes(parent)|
    ensures Has(s, p, StringBytes(n.name)) && Has(s, p + |StringBytes(n.name)|, ParentBytes(parent))
  {
    hide Has, Join, StringBytes, ParentBytes;
    HasPart(s, p, DirectoryEnd(n, parent), 0);
    HasPart(s, p + |StringBytes(n.name)|, DirectoryEnd(n, parent), 1);
  }

  lemma ReadsNameAndParent(s: Bytes, p: nat, t: Table, name: Bytes, parent: nat, f: seq<FieldDesc>)
    requires |f| == 7 && f[5].code == FIELD_OBJECT && f[6].code == FIELD_OBJECT
    requires StringFits(name) && |t| <= MAX_HANDLES && (parent != 0 ==> ObjectInTable(t, parent))
    requires var q := p + |StringBytes(name)|;
             && Has(s, p, StringBytes(name)) && Has(s, q, ParentBytes(parent))
             && Has(s, q + |ParentBytes(parent)|, DirectoryTail(parent))
    ensures ReadValues(s, p, t, f, 5)
         == if |t| < MAX_HANDLES
            then Parsed([StringValue(|t|, name), ParentValue(parent)],
                        p + |StringBytes(name)| + |ParentBytes(parent)| + |DirectoryTail(parent)|,
                        t + [StringEntry(name)])
            else Refused
  {
    hide Has, StringBytes, ReadValues, ReadObject, DirectoryTail, ParentValue, ParentBytes, Prefixed;
    var q := p + |StringBytes(name)|;
    ReadsStringValue(s, p, t, name);
    ReadsObjectField(s, p, t, f, 5);
    if |t| < MAX_HANDLES {
      var u := t + [StringEntry(name)];
      ReadsParent(s, q, u, parent);
      ReadsObjectField(s, q, u, f, 6);
      var end := q + |ParentBytes(parent)| + |DirectoryTail(parent)|;
      NoMoreFields(s, end, u, f);
      TwoPrefixes(StringValue(|t|, name), ParentValue(parent), end, u);
    }
  }

  lemma DirectoryIsMeant(n: Node, h: nat, h1: nat, list: Value, parent: nat)
    requires n.Directory? && (parent == 0 || parent >= BASE_WIRE_HANDLE)
    requires list.ObjectValue? && IsArrayList(list) && AllMean(list.annotation[1..], h, n.list)
    ensures var fields := FlagValues(n) + ([list] + [StringValue(h1, n.name), ParentValue(parent)]);
            Means(ObjectValue(h, DIRECTORY_DESC, fields, []), ParentOf(parent), n)
  {
    ClassesDiffer();
    hide Ascii;
    var fields := FlagValues(n) + ([list] + [StringValue(h1, n.name), ParentValue(parent)]);
    ListIsFresh(list, h, n.list);
    hide Fresh, IsArrayList;
    AllFresh(h, DIRECTORY_DESC, fields);
  }

  lemma ListIsFresh(list: Value, h: nat, nodes: seq<Node>)
    requires list.ObjectValue? && IsArrayList(list) && AllMean(list.annotation[1..], h, nodes)
    ensures Fresh(list)
  {
    hide Ascii, NodesOf;
    forall a | a in list.annotation ensures Fresh(a) {
      assert a == list.annotation[0] || a in list.annotation[1..];
    }
  }

  lemma DirectoryIsDefined(share: bool, st: State)
    requires st.count > 0
    ensures share ==> EmitDirectoryDefinition(share, st).st.defs.treeDirectory != 0
  {}

  /** An object that stands for a directory. */
  lemma {:induction false} ReadsDirectory(share: bool, n: Node, parent: nat, st: State, s: Bytes, p: nat, t: Table)
    requires n.Directory? && StringsFit(n)
    requires Agree(share, st, t) && (parent != 0 ==> ObjectInTable(t, parent))
    requires Has(s, p, EmitDirectory(share, n, parent, st).bytes)
    requires Has(s, p + |EmitDirectory(share, n, parent, st).bytes|, DirectoryTail(parent))
    ensures p < |s| && s[p] == TC_OBJECT
    ensures var e := EmitDirectory(share, n, parent, st);
            NodeRead(ReadObject(s, p, t), share, e.st, t, p + |e.bytes| + |DirectoryTail(parent)|, n, ParentOf(parent))
    decreases n, 3
  {
    hide Has, Join, Flags, DirectoryEnd, EmitDirectoryDefinition, EmitList, ReadClassDesc, ReadValues, DefinitionsAgree,
         StringsFit, Ascii, Means, DirectoryTail, IsArrayList, AllMean, ParentOf;
    var d := EmitDirectoryDefinition(share, st);
    var self := d.st.count;
    var l := EmitList(share, n, self, d.st.(count := self + 1));
    var parts := DirectoryParts(d.bytes, l.bytes, n, parent);
    HasPart(s, p, parts, 0);
    var p1 := p + |parts[0]|;
    HasPart(s, p1, parts, 1);
    var p2 := p1 + |parts[1]|;
    HasPart(s, p2, parts, 2);
    var p3 := p2 + |parts[2]|;
    HasPart(s, p3, parts, 3);
    ReadsDirectoryDefinition(share, st, s, p, t);
    DirectoryIsDefined(share, st);
    ListGrows(share, n, self, d.st.(count := self + 1));
    var r := ReadClassDesc(s, p + 1, t);
    if self < BASE_WIRE_HANDLE + MAX_HANDLES {
      AgreeMore(share, d.st, r.table, ObjectEntry(DIRECTORY_CLASS));
      ReadsDirectoryValues(share, n, parent, self, d.st.(count := self + 1), s, p1,
                           r.table + [ObjectEntry(DIRECTORY_CLASS)]);
    }
  }

  /** The values of a directory with wire handle `self`. */
  ghost predicate ValuesRead(r: Parsed<seq<Value>>, share: bool, st: State, t: Table, q: nat, n: Node, self: nat,
                             parent: nat) {
    if st.count <= BASE_WIRE_HANDLE + MAX_HANDLES
    then r.Parsed? && r.pos == q && t <= r.table && Agree(share, st, r.table)
         && Means(ObjectValue(self, DIRECTORY_DESC, r.value, []), ParentOf(parent), n)
    else r.Refused?
  }

  lemma {:induction false} ReadsDirectoryValues(share: bool, n: Node, parent: nat, self: nat, st: State,
                                                s: Bytes, p: nat, t: Table)
    requires n.Directory? && StringsFit(n)
    requires Agree(share, st, t) && (parent != 0 ==> ObjectInTable(t, parent)) && ObjectInTable(t, self)
    requires share ==> st.defs.treeDirectory != 0
    requires var l := EmitList(share, n, self, st);
             && Has(s, p, Join(Flags(n), 0))
             && Has(s, p + |Join(Flags(n), 0)|, l.bytes)
             && Has(s, p + |Join(Flags(n), 0)| + |l.bytes|, Join(DirectoryEnd(n, parent), 0))
             && Has(s, p + |Join(Flags(n), 0)| + |l.bytes| + |Join(DirectoryEnd(n, parent), 0)|, DirectoryTail(parent))
    ensures var l := EmitList(share, n, self, st);
            ValuesRead(ReadValues(s, p, t, DIRECTORY_DESC.fields, 0), share, l.st.(count := l.st.count + 1), t,
                       p + |Join(Flags(n), 0)| + |l.bytes| + |Join(DirectoryEnd(n, parent), 0)|
                       + |DirectoryTail(parent)|,
                       n, self - BASE_WIRE_HANDLE, parent)
    decreases n, 2
  {
    hide Has, Join, Flags, DirectoryEnd, EmitList, ReadValues, ReadObject, DefinitionsAgree, StringsFit, Ascii, Means,
         DirectoryTail, IsArrayList, AllMean, ParentOf, ParentValue;
    var l := EmitList(share, n, self, st);
    var p2 := p + |Join(Flags(n), 0)|;
    ReadsFlags(s, p, t, n);
    ReadsList(share, n, self, st, s, p2, t);
    ReadsObjectField(s, p2, t, DIRECTORY_DESC.fields, 4);
    var list := ReadObject(s, p2, t);
    if list.Parsed? {
      NameFits(n);
      ReadsDirectoryEnd(s, p2 + |l.bytes|, list.table, n, parent, DIRECTORY_DESC.fields);
      if |list.table| < MAX_HANDLES {
        StillDefined(share, l.st, t, list.table);
        AgreeMore(share, l.st, list.table, StringEntry(n.name));
        DirectoryIsMeant(n, self - BASE_WIRE_HANDLE, |list.table|, list.value, parent);
      }
    }
  }

  lemma NameFits(n: Node)
    requires StringsFit(n)
    ensures StringFits(n.name)
  {}

  lemma ListGrows(share: bool, n: Node, self: nat, st: State)
    requires n.Directory?
    ensures EmitList(share, n, self, st).st.count > st.count
  {
    ArrayListKeeps(share, st);
    AllHandlesGrow(share, n.list, self, EmitArrayListDefinition(share, st).st);
  }
}
