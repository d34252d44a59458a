/** Strings longer than their 16-bit length: the receiver can get another tree than the one sent. */
module SyncLongStrings {
  import opened Bytes
  import opened JavaStreamReader
  import opened SyncTree
  import opened SyncWire
  import opened SyncCounting
  import opened SyncTheorems

  /** Different trees have different streams, as long as their strings fit. */
  lemma StreamsDiffer(n: Node, m: Node)
    requires n.Directory? && StringsFit(n) && StringsFit(m) && HandleCount(n) <= 0x8000_0000
    requires Body(true, n) == Body(true, m)
    ensures n == m
  {
    hide *;
    RoundTrip(n);
    NeverAnotherTree(m);
  }

  function Plain(name: Bytes, sha1: Bytes): Node {
    Leaf(false, 0, false, 0, false, name, sha1)
  }

  function Numbers(): Bytes {
    Join(LeafNumbers(Plain([], [])), 0)
  }

  lemma Flattened(d: Bytes, n: Bytes, x: Bytes, r: Bytes, y: Bytes, tail: Bytes)
    ensures Join([d, n, Join([x, r, y], 0)], 0) + tail == d + (n + (x + (r + (y + tail))))
  {
    ThreeParts(x, r, y);
    ThreeParts(d, n, x + (r + y));
    Associates(d, n + (x + (r + y)), tail);
    Associates(n, x + (r + y), tail);
    Associates(x, r + y, tail);
    Associates(r, y, tail);
  }

  lemma ThreeParts(a: Bytes, b: Bytes, c: Bytes)
    ensures Join([a, b, c], 0) == a + (b + c)
  {
    var parts := [a, b, c];
    assert Join(parts, 3) == [];
    assert Join(parts, 2) == c + [] == c;
    assert Join(parts, 1) == b + Join(parts, 2);
    assert Join(parts, 0) == a + Join(parts, 1);
  }

  /** The bytes of a leaf, with whatever comes after them. */
  lemma LeafBytes(name: Bytes, sha1: Bytes, parent: nat, st: State, tail: Bytes)
    ensures EmitLeaf(true, Plain(name, sha1), parent, st).bytes + tail
         == EmitLeafDefinition(true, st).bytes
            + (Numbers() + (StringBytes(name) + (ReferenceBytes(parent) + (StringBytes(sha1) + tail))))
  {
    hide Join, EmitLeafDefinition, StringBytes, ReferenceBytes;
    Flattened(EmitLeafDefinition(true, st).bytes, Numbers(), StringBytes(name), ReferenceBytes(parent),
              StringBytes(sha1), tail);
  }

  function Filler(): Bytes { seq(65492, _ => 0) }

  /** What the writer sends after the name of the first leaf, up to the end of the second. */
  function Rest(parent: nat, cls: nat): Bytes {
    var s := StringBytes([]);
    var r := ReferenceBytes(parent);
    r + (s + (([TC_OBJECT] + ReferenceBytes(cls)) + (Numbers() + (s + (r + (s + []))))))
  }

  /** A name of 65536 bytes that reads like the end of its leaf and the beginning of another. */
  function LongName(parent: nat, cls: nat): Bytes {
    var r := ReferenceBytes(parent);
    r + (StringBytes([]) + (([TC_OBJECT] + ReferenceBytes(cls)) + (Numbers()
         + (StringBytes(Filler()) + (r + ([TC_STRING] + BigEndian(44, 2)))))))
  }

  function Sent2(parent: nat, cls: nat): seq<Node> { [Plain(LongName(parent, cls), []), Plain([], [])] }

  function Got2(parent: nat, cls: nat): seq<Node> { [Plain([], []), Plain(Filler(), Rest(parent, cls))] }

  lemma Lengths(parent: nat, cls: nat)
    ensures |LongName(parent, cls)| == 0x1_0000 && |Rest(parent, cls)| == 44
  {
    hide Join, LeafNumbers, Filler;
    LeafLength(Plain([], []), parent);
    assert |Filler()| == 65492 by { FillerLength(); }
  }

  lemma FillerLength()
    ensures |Filler()| == 65492
  {}

  /** The length of the long name is cut off to 0. */
  lemma LengthIsLost(name: Bytes, tail: Bytes)
    requires |name| == 0x1_0000
    ensures StringBytes(name) + tail == StringBytes([]) + (name + tail)
  {
    Pow256Values();
    BigEndianWraps(0, 2);
    hide BigEndian;
    assert BigEndian(0x1_0000, 2) == BigEndian(0, 2);
    assert StringBytes([]) == [TC_STRING] + BigEndian(0, 2);
    assert StringBytes(name) == StringBytes([]) + name;
    Associates(StringBytes([]), name, tail);
  }

  lemma NameThenRest(r: Bytes, s: Bytes, c: Bytes, n: Bytes, f: Bytes, h: Bytes, w: Bytes)
    ensures (r + (s + (c + (n + (f + (r + h)))))) + w == r + (s + (c + (n + (f + (r + (h + w))))))
  {
    Associates(r, s + (c + (n + (f + (r + h)))), w);
    Associates(s, c + (n + (f + (r + h))), w);
    Associates(c, n + (f + (r + h)), w);
    Associates(n, f + (r + h), w);
    Associates(f, r + h, w);
    Associates(r, h, w);
  }

  lemma StringHead(w: Bytes)
    requires |w| == 44
    ensures StringBytes(w) == ([TC_STRING] + BigEndian(44, 2)) + w
  {
    hide BigEndian;
    Associates([TC_STRING], BigEndian(44, 2), w);
  }

  /** After the first leaf the class of leaves is known under the handle that was free before. */
  lemma SecondDefinition(n: Node, parent: nat, st: State)
    requires n.Leaf? && st.defs.treeLeaf == 0 && st.count > 0
    ensures var st1 := EmitLeaf(true, n, parent, st).st;
            && st1 == State(st.count + 4, st.defs.(treeLeaf := st.count))
            && EmitLeafDefinition(true, st1) == Emission([TC_OBJECT] + ReferenceBytes(st.count), st1)
  {
    hide Join, ClassParts, LeafParts, ReferenceBytes;
  }

  lemma TwoLeaves(a: Node, b: Node, parent: nat, st: State)
    requires a.Leaf? && b.Leaf?
    ensures var e := EmitLeaf(true, a, parent, st); var e' := EmitLeaf(true, b, parent, e.st);
            EmitAll(true, [a, b], parent, st) == Emission(e.bytes + (e'.bytes + []), e'.st)
  {
    hide EmitLeaf;
    assert [a, b][1..] == [b] && [b][1..] == [];
    assert EmitAll(true, [b], parent, EmitLeaf(true, a, parent, st).st).bytes
        == EmitLeaf(true, b, parent, EmitLeaf(true, a, parent, st).st).bytes + [];
  }

  /** The two lists leave as the same bytes. */
  lemma SameBytes(parent: nat, st: State)
    requires st.defs.treeLeaf == 0 && st.count > 0
    ensures EmitAll(true, Sent2(parent, st.count), parent, st) == EmitAll(true, Got2(parent, st.count), parent, st)
  {
    hide EmitLeaf, EmitLeafDefinition, StringBytes, ReferenceBytes, Numbers, Filler, EmitAll, LongName, Rest;
    var d := EmitLeafDefinition(true, st).bytes;
    var m, w := LongName(parent, st.count), Rest(parent, st.count);
    Lengths(parent, st.count);
    SentBytes(parent, st, m);
    GotBytes(parent, st, w);
    LengthIsLost(m, w);
    Continued(parent, st.count);
  }

  lemma SentBytes(parent: nat, st: State, m: Bytes)
    requires st.defs.treeLeaf == 0 && st.count > 0
    ensures EmitAll(true, [Plain(m, []), Plain([], [])], parent, st).bytes
         == EmitLeafDefinition(true, st).bytes + (Numbers() + (StringBytes(m) + Rest(parent, st.count)))
    ensures EmitAll(true, [Plain(m, []), Plain([], [])], parent, st).st
         == State(st.count + 7, st.defs.(treeLeaf := st.count))
  {
    hide EmitLeaf, EmitLeafDefinition, StringBytes, ReferenceBytes, Numbers, EmitAll;
    TwoLeaves(Plain(m, []), Plain([], []), parent, st);
    SecondDefinition(Plain(m, []), parent, st);
    var st1 := EmitLeaf(true, Plain(m, []), parent, st).st;
    KnownLeaf(Plain([], []), parent, st1);
    LeafBytes([], [], parent, st1, []);
    LeafBytes(m, [], parent, st, EmitLeaf(true, Plain([], []), parent, st1).bytes + []);
  }

  lemma KnownLeaf(n: Node, parent: nat, st: State)
    requires n.Leaf? && st.defs.treeLeaf != 0
    ensures EmitLeaf(true, n, parent, st).st == st.(count := st.count + 3)
  {
    hide Join, LeafParts, ReferenceBytes;
  }

  lemma GotBytes(parent: nat, st: State, w: Bytes)
    requires st.defs.treeLeaf == 0 && st.count > 0 && |w| == 44
    ensures EmitAll(true, [Plain([], []), Plain(Filler(), w)], parent, st).bytes
         == EmitLeafDefinition(true, st).bytes
            + (Numbers() + (StringBytes([]) + (ReferenceBytes(parent) + (StringBytes([])
               + (([TC_OBJECT] + ReferenceBytes(st.count)) + (Numbers() + (StringBytes(Filler())
               + (ReferenceBytes(parent) + (([TC_STRING] + BigEndian(44, 2)) + w)))))))))
    ensures EmitAll(true, [Plain([], []), Plain(Filler(), w)], parent, st).st
         == State(st.count + 7, st.defs.(treeLeaf := st.count))
  {
    hide EmitLeaf, EmitLeafDefinition, StringBytes, ReferenceBytes, Numbers, EmitAll, Filler, BigEndian;
    var a, b := Plain([], []), Plain(Filler(), w);
    TwoLeaves(a, b, parent, st);
    SecondDefinition(a, parent, st);
    var st1 := EmitLeaf(true, a, parent, st).st;
    KnownLeaf(b, parent, st1);
    LeafBytes(Filler(), w, parent, st1, []);
    StringHead(w);
    assert StringBytes(w) + [] == StringBytes(w);
    LeafBytes([], [], parent, st, EmitLeaf(true, b, parent, st1).bytes + []);
  }

  lemma Continued(parent: nat, cls: nat)
    ensures LongName(parent, cls) + Rest(parent, cls)
         == ReferenceBytes(parent) + (StringBytes([])
            + (([TC_OBJECT] + ReferenceBytes(cls)) + (Numbers() + (StringBytes(Filler())
            + (ReferenceBytes(parent) + (([TC_STRING] + BigEndian(44, 2)) + Rest(parent, cls)))))))
  {
    hide StringBytes, ReferenceBytes, Numbers, Filler, BigEndian, Rest;
    NameThenRest(ReferenceBytes(parent), StringBytes([]), [TC_OBJECT] + ReferenceBytes(cls), Numbers(),
                 StringBytes(Filler()), [TC_STRING] + BigEndian(44, 2), Rest(parent, cls));
  }

  function Root(list: seq<Node>): Node {
    Directory(false, false, false, false, list, [])
  }

  const ROOT_HANDLE: nat := BASE_WIRE_HANDLE + 4
  const LEAF_CLASS_HANDLE: nat := BASE_WIRE_HANDLE + 7

  lemma SameLists(a: seq<Node>, b: seq<Node>, self: nat, st: State)
    requires |a| == |b|
    requires EmitAll(true, a, self, EmitArrayListDefinition(true, st).st)
          == EmitAll(true, b, self, EmitArrayListDefinition(true, st).st)
    ensures EmitList(true, Root(a), self, st) == EmitList(true, Root(b), self, st)
  {
    hide Join, EmitAll, EmitArrayListDefinition, BigEndian;
  }

  lemma SameDirectories(a: seq<Node>, b: seq<Node>, st: State)
    requires var d := EmitDirectoryDefinition(true, st);
      EmitList(true, Root(a), d.st.count, d.st.(count := d.st.count + 1))
      == EmitList(true, Root(b), d.st.count, d.st.(count := d.st.count + 1))
    ensures EmitDirectory(true, Root(a), 0, st) == EmitDirectory(true, Root(b), 0, st)
  {
    hide Join, EmitList, EmitDirectoryDefinition, BigEndian, StringBytes;
  }

  /** Two roots differ in their bytes only as their lists do. */
  lemma SameRoots(a: seq<Node>, b: seq<Node>, st: State)
    requires |a| == |b|
    requires st == EmitArrayListDefinition(true, EmitDirectoryDefinition(true, FRESH).st.(count := ROOT_HANDLE + 1)).st
    requires EmitAll(true, a, ROOT_HANDLE, st) == EmitAll(true, b, ROOT_HANDLE, st)
    ensures Body(true, Root(a)) == Body(true, Root(b))
  {
    hide EmitAll, EmitList, EmitDirectory, EmitArrayListDefinition, Join, ClassParts;
    var d := EmitDirectoryDefinition(true, FRESH);
    assert d.st.count == ROOT_HANDLE;
    SameLists(a, b, ROOT_HANDLE, d.st.(count := ROOT_HANDLE + 1));
    SameDirectories(a, b, FRESH);
  }

  lemma StartOfList() returns (st: State)
    ensures st == EmitArrayListDefinition(true, EmitDirectoryDefinition(true, FRESH).st.(count := ROOT_HANDLE + 1)).st
    ensures st.count == LEAF_CLASS_HANDLE && st.defs.treeLeaf == 0
  {
    hide Join, ClassParts;
    st := EmitArrayListDefinition(true, EmitDirectoryDefinition(true, FRESH).st.(count := ROOT_HANDLE + 1)).st;
  }

  const SENT := Root(Sent2(ROOT_HANDLE, LEAF_CLASS_HANDLE))
  const GOT := Root(Got2(ROOT_HANDLE, LEAF_CLASS_HANDLE))

  /** The receiver takes one tree for another, and nothing tells it so. */
  lemma AnotherTree()
    ensures Body(true, SENT) == Body(true, GOT) && SENT != GOT
    ensures Decode(Body(true, SENT)) == Some(GOT)
  {
    hide Body, Decode, LongName, Rest, EmitAll, EmitArrayListDefinition, EmitDirectoryDefinition, Filler;
    var st := StartOfList();
    SameBytes(ROOT_HANDLE, st);
    SameRoots(Sent2(ROOT_HANDLE, LEAF_CLASS_HANDLE), Got2(ROOT_HANDLE, LEAF_CLASS_HANDLE), st);
    Lengths(ROOT_HANDLE, LEAF_CLASS_HANDLE);
    FillerLength();
    GotIsSound(Filler(), Rest(ROOT_HANDLE, LEAF_CLASS_HANDLE));
    assert SENT.list[0].name != GOT.list[0].name;
  }

  lemma CountsOfPair(a: Node, b: Node)
    requires a.Leaf? && b.Leaf?
    ensures Leaves(Root([a, b])) == 2 && Directories(Root([a, b])) == 1
  {
    assert [a, b][1..] == [b] && [b][1..] == [];
    assert LeavesIn([b]) == 1 && DirectoriesIn([b]) == 0;
    assert LeavesIn([a, b]) == 2 && DirectoriesIn([a, b]) == 0;
  }

  lemma GotIsSound(f: Bytes, w: Bytes)
    requires |f| < 0x1_0000 && |w| < 0x1_0000
    ensures var n := Root([Plain([], []), Plain(f, w)]); Decode(Body(true, n)) == Some(n)
  {
    hide Body, Decode;
    var list := [Plain([], []), Plain(f, w)];
    var n := Root(list);
    assert list[1..] == [Plain(f, w)] && list[1..][1..] == [];
    CountsOfPair(list[0], list[1]);
    assert StringsFit(n);
    RoundTrip(n);
  }

  predicate StringsWithin(n: Node, longest: nat) {
    && |n.name| <= longest
    && (n.Leaf? ==> |n.sha1| <= longest)
    && (n.Directory? ==> forall c | c in n.list :: StringsWithin(c, longest))
  }

  lemma {:induction false} WithinFits(n: Node, longest: nat)
    requires StringsWithin(n, longest) && longest < 0x1_0000
    ensures StringsFit(n)
  {
    if n.Directory? {
      forall c | c in n.list ensures StringsFit(c) { WithinFits(c, longest); }
    }
  }

  /** A limit on the length of strings rules out that a tree arrives as another if and only if it is at
      most 65535. */
  lemma LongestString(longest: nat)
    ensures (forall n :: StringsWithin(n, longest) ==> Decode(Body(true, n)) in {Some(n), None})
       <==> longest < 0x1_0000
  {
    hide Body, Decode;
    if longest < 0x1_0000 {
      forall n | StringsWithin(n, longest) ensures Decode(Body(true, n)) in {Some(n), None} {
        WithinFits(n, longest);
        NeverAnotherTree(n);
      }
    } else {
      AnotherTree();
      SentIsWithin(longest);
    }
  }

  lemma SentIsWithin(longest: nat)
    requires longest >= 0x1_0000
    ensures StringsWithin(SENT, longest)
  {
    hide LongName;
    Lengths(ROOT_HANDLE, LEAF_CLASS_HANDLE);
  }
}
