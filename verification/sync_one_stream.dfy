/** One stream in full, number by number: a root "r" with one file "a.pbo" in it. */
module SyncOneStream {
  import opened Bytes
  import opened SyncTree
  import opened SyncWire
  import opened SyncTheorems
  import opened SyncBytes

  /** SyncTreeDirectory with its seven fields. */
  const DIRECTORY_CLASS_NUMBERS: Bytes :=
    [0x73, 0x72, 0x00, 0x2E]
    + ([0x66, 0x72, 0x2E, 0x73, 0x6F, 0x65, 0x2E, 0x61, 0x33, 0x73, 0x2E, 0x64, 0x6F, 0x6D, 0x61, 0x69, 0x6E, 0x2E,
        0x72, 0x65, 0x70, 0x6F, 0x73, 0x69, 0x74, 0x6F, 0x72, 0x79, 0x2E]
       + [0x53, 0x79, 0x6E, 0x63, 0x54, 0x72, 0x65, 0x65, 0x44, 0x69, 0x72, 0x65, 0x63, 0x74, 0x6F, 0x72, 0x79])
    + [0xD8, 0x5F, 0xEB, 0x3C, 0x78, 0x4F, 0x59, 0xF8, 0x02, 0x00, 0x07]
    + [0x5A, 0x00, 0x07] + [0x64, 0x65, 0x6C, 0x65, 0x74, 0x65, 0x64]
    + [0x5A, 0x00, 0x06] + [0x68, 0x69, 0x64, 0x64, 0x65, 0x6E]
    + [0x5A, 0x00, 0x0B] + [0x6D, 0x61, 0x72, 0x6B, 0x41, 0x73, 0x41, 0x64, 0x64, 0x6F, 0x6E]
    + [0x5A, 0x00, 0x07] + [0x75, 0x70, 0x64, 0x61, 0x74, 0x65, 0x64]
    + [0x4C, 0x00, 0x04] + [0x6C, 0x69, 0x73, 0x74]
    + [0x74, 0x00, 0x10]
    + [0x4C, 0x6A, 0x61, 0x76, 0x61, 0x2F, 0x75, 0x74, 0x69, 0x6C, 0x2F, 0x4C, 0x69, 0x73, 0x74, 0x3B]
    + [0x4C, 0x00, 0x04] + [0x6E, 0x61, 0x6D, 0x65]
    + [0x74, 0x00, 0x12]
    + [0x4C, 0x6A, 0x61, 0x76, 0x61, 0x2F, 0x6C, 0x61, 0x6E, 0x67, 0x2F, 0x53, 0x74, 0x72, 0x69, 0x6E, 0x67, 0x3B]
    + [0x4C, 0x00, 0x06] + [0x70, 0x61, 0x72, 0x65, 0x6E, 0x74]
    + [0x74, 0x00, 0x30]
    + ([0x4C, 0x66, 0x72, 0x2F, 0x73, 0x6F, 0x65, 0x2F, 0x61, 0x33, 0x73, 0x2F, 0x64, 0x6F, 0x6D, 0x61, 0x69, 0x6E,
        0x2F, 0x72, 0x65, 0x70, 0x6F, 0x73, 0x69, 0x74, 0x6F, 0x72, 0x79, 0x2F]
       + [0x53, 0x79, 0x6E, 0x63, 0x54, 0x72, 0x65, 0x65, 0x44, 0x69, 0x72, 0x65, 0x63, 0x74, 0x6F, 0x72, 0x79, 0x3B])
    + [0x78, 0x70]

  /** ArrayList with its one field. */
  const LIST_CLASS_NUMBERS: Bytes :=
    [0x73, 0x72, 0x00, 0x13]
    + [0x6A, 0x61, 0x76, 0x61, 0x2E, 0x75, 0x74, 0x69, 0x6C, 0x2E, 0x41, 0x72, 0x72, 0x61, 0x79, 0x4C, 0x69, 0x73,
       0x74]
    + [0x78, 0x81, 0xD2, 0x1D, 0x99, 0xC7, 0x61, 0x9D, 0x03, 0x00, 0x01]
    + [0x49, 0x00, 0x04] + [0x73, 0x69, 0x7A, 0x65]
    + [0x78, 0x70]

  /** SyncTreeLeaf with its eight fields, three of them with a reference to their type. */
  const LEAF_CLASS_NUMBERS: Bytes :=
    [0x73, 0x72, 0x00, 0x29]
    + ([0x66, 0x72, 0x2E, 0x73, 0x6F, 0x65, 0x2E, 0x61, 0x33, 0x73, 0x2E, 0x64, 0x6F, 0x6D, 0x61, 0x69, 0x6E, 0x2E,
        0x72, 0x65, 0x70, 0x6F, 0x73, 0x69, 0x74, 0x6F, 0x72, 0x79, 0x2E]
       + [0x53, 0x79, 0x6E, 0x63, 0x54, 0x72, 0x65, 0x65, 0x4C, 0x65, 0x61, 0x66])
    + [0x7A, 0xCE, 0xD8, 0x4D, 0x24, 0x27, 0x12, 0xD7, 0x02, 0x00, 0x08]
    + [0x5A, 0x00, 0x0A] + [0x63, 0x6F, 0x6D, 0x70, 0x72, 0x65, 0x73, 0x73, 0x65, 0x64]
    + [0x4A, 0x00, 0x0E] + [0x63, 0x6F, 0x6D, 0x70, 0x72, 0x65, 0x73, 0x73, 0x65, 0x64, 0x53, 0x69, 0x7A, 0x65]
    + [0x5A, 0x00, 0x07] + [0x64, 0x65, 0x6C, 0x65, 0x74, 0x65, 0x64]
    + [0x4A, 0x00, 0x04] + [0x73, 0x69, 0x7A, 0x65]
    + [0x5A, 0x00, 0x07] + [0x75, 0x70, 0x64, 0x61, 0x74, 0x65, 0x64]
    + [0x4C, 0x00, 0x04] + [0x6E, 0x61, 0x6D, 0x65]
    + [0x71] + [0x00, 0x7E, 0x00, 0x02]
    + [0x4C, 0x00, 0x06] + [0x70, 0x61, 0x72, 0x65, 0x6E, 0x74]
    + [0x71] + [0x00, 0x7E, 0x00, 0x03]
    + [0x4C, 0x00, 0x04] + [0x73, 0x68, 0x61, 0x31]
    + [0x71] + [0x00, 0x7E, 0x00, 0x02]
    + [0x78, 0x70]

  /** The text of the source as numbers. */
  lemma FlagNames()
    ensures Ascii("deleted") == [0x64, 0x65, 0x6C, 0x65, 0x74, 0x65, 0x64]
    ensures Ascii("hidden") == [0x68, 0x69, 0x64, 0x64, 0x65, 0x6E]
    ensures Ascii("markAsAddon") == [0x6D, 0x61, 0x72, 0x6B, 0x41, 0x73, 0x41, 0x64, 0x64, 0x6F, 0x6E]
    ensures Ascii("updated") == [0x75, 0x70, 0x64, 0x61, 0x74, 0x65, 0x64]
  {}

  lemma OtherNames()
    ensures Ascii("list") == [0x6C, 0x69, 0x73, 0x74]
    ensures Ascii("name") == [0x6E, 0x61, 0x6D, 0x65]
    ensures Ascii("parent") == [0x70, 0x61, 0x72, 0x65, 0x6E, 0x74]
    ensures Ascii("size") == [0x73, 0x69, 0x7A, 0x65]
    ensures Ascii("sha1") == [0x73, 0x68, 0x61, 0x31]
  {}

  lemma LeafNames()
    ensures Ascii("compressed") == [0x63, 0x6F, 0x6D, 0x70, 0x72, 0x65, 0x73, 0x73, 0x65, 0x64]
    ensures Ascii("compressedSize") ==
         [0x63, 0x6F, 0x6D, 0x70, 0x72, 0x65, 0x73, 0x73, 0x65, 0x64, 0x53, 0x69, 0x7A, 0x65]
  {}

  lemma ShortNames()
    ensures Ascii("a.pbo") == [0x61, 0x2E, 0x70, 0x62, 0x6F]
    ensures Ascii("0") == [0x30]
    ensures Ascii("r") == [0x72]
  {}

  lemma TypeNames()
    ensures Ascii("Ljava/util/List;") ==
         [0x4C, 0x6A, 0x61, 0x76, 0x61, 0x2F, 0x75, 0x74, 0x69, 0x6C, 0x2F, 0x4C, 0x69, 0x73, 0x74, 0x3B]
    ensures Ascii("Ljava/lang/String;") ==
         [0x4C, 0x6A, 0x61, 0x76, 0x61, 0x2F, 0x6C, 0x61, 0x6E, 0x67, 0x2F, 0x53, 0x74, 0x72, 0x69, 0x6E, 0x67, 0x3B]
  {}

  lemma ListName()
    ensures Ascii("java.util.ArrayList") ==
         [0x6A, 0x61, 0x76, 0x61, 0x2E, 0x75, 0x74, 0x69, 0x6C, 0x2E, 0x41, 0x72, 0x72, 0x61, 0x79, 0x4C, 0x69, 0x73,
          0x74]
  {}

  lemma PackageName()
    ensures Ascii("fr.soe.a3s.domain.repository.") ==
         [0x66, 0x72, 0x2E, 0x73, 0x6F, 0x65, 0x2E, 0x61, 0x33, 0x73, 0x2E, 0x64, 0x6F, 0x6D, 0x61, 0x69, 0x6E, 0x2E,
          0x72, 0x65, 0x70, 0x6F, 0x73, 0x69, 0x74, 0x6F, 0x72, 0x79, 0x2E]
  {}

  lemma PackagePath()
    ensures Ascii("Lfr/soe/a3s/domain/repository/") ==
         [0x4C, 0x66, 0x72, 0x2F, 0x73, 0x6F, 0x65, 0x2F, 0x61, 0x33, 0x73, 0x2F, 0x64, 0x6F, 0x6D, 0x61, 0x69, 0x6E,
          0x2F, 0x72, 0x65, 0x70, 0x6F, 0x73, 0x69, 0x74, 0x6F, 0x72, 0x79, 0x2F]
  {}

  lemma NodeNames()
    ensures Ascii("SyncTreeDirectory") ==
         [0x53, 0x79, 0x6E, 0x63, 0x54, 0x72, 0x65, 0x65, 0x44, 0x69, 0x72, 0x65, 0x63, 0x74, 0x6F, 0x72, 0x79]
    ensures Ascii("SyncTreeLeaf") == [0x53, 0x79, 0x6E, 0x63, 0x54, 0x72, 0x65, 0x65, 0x4C, 0x65, 0x61, 0x66]
    ensures Ascii("SyncTreeDirectory;") ==
         [0x53, 0x79, 0x6E, 0x63, 0x54, 0x72, 0x65, 0x65, 0x44, 0x69, 0x72, 0x65, 0x63, 0x74, 0x6F, 0x72, 0x79, 0x3B]
  {}

  lemma AsciiJoin(s: string, t: string)
    ensures Ascii(s + t) == Ascii(s) + Ascii(t)
  {}

  lemma ClassNames()
    ensures Ascii("fr.soe.a3s.domain.repository.SyncTreeDirectory")
         == Ascii("fr.soe.a3s.domain.repository.") + Ascii("SyncTreeDirectory")
    ensures Ascii("fr.soe.a3s.domain.repository.SyncTreeLeaf")
         == Ascii("fr.soe.a3s.domain.repository.") + Ascii("SyncTreeLeaf")
    ensures Ascii("Lfr/soe/a3s/domain/repository/SyncTreeDirectory;")
         == Ascii("Lfr/soe/a3s/domain/repository/") + Ascii("SyncTreeDirectory;")
  {
    AsciiJoin("fr.soe.a3s.domain.repository.", "SyncTreeDirectory");
    AsciiJoin("fr.soe.a3s.domain.repository.", "SyncTreeLeaf");
    AsciiJoin("Lfr/soe/a3s/domain/repository/", "SyncTreeDirectory;");
    hide Ascii;
    assert "fr.soe.a3s.domain.repository.SyncTreeDirectory" == "fr.soe.a3s.domain.repository." + "SyncTreeDirectory";
    assert "fr.soe.a3s.domain.repository.SyncTreeLeaf" == "fr.soe.a3s.domain.repository." + "SyncTreeLeaf";
    assert "Lfr/soe/a3s/domain/repository/SyncTreeDirectory;"
        == "Lfr/soe/a3s/domain/repository/" + "SyncTreeDirectory;";
  }

  lemma DirectoryClassNumbers()
    ensures NEW_DIRECTORY_CLASS == DIRECTORY_CLASS_NUMBERS
  {
    hide Ascii;
    FlagNames();
    OtherNames();
    TypeNames();
    PackageName();
    PackagePath();
    NodeNames();
    ClassNames();
  }

  lemma ListClassNumbers()
    ensures NEW_LIST_CLASS == LIST_CLASS_NUMBERS
  {
    hide Ascii;
    ListName();
    OtherNames();
  }

  lemma Handles()
    ensures BigEndian(0x7E_0002, 4) == [0x00, 0x7E, 0x00, 0x02]
    ensures BigEndian(0x7E_0003, 4) == [0x00, 0x7E, 0x00, 0x03]
    ensures BigEndian(0x7E_0004, 4) == [0x00, 0x7E, 0x00, 0x04]
  {
    hide BigEndian;
    EarlyHandle(2);
    EarlyHandle(3);
    EarlyHandle(4);
  }

  lemma EarlyHandle(i: nat)
    requires i < 256
    ensures BigEndian(0x7E_0000 + i, 4) == [0x00, 0x7E, 0x00, i]
  {
    assert (0x7E_0000 + i) / 256 == 0x7E00 && (0x7E_0000 + i) % 256 == i;
    assert BigEndian(0x7E00, 3) == [0x00, 0x7E, 0x00];
  }

  lemma LeafClassNumbers()
    ensures NewLeafClass(0x7E_0002, 0x7E_0003) == LEAF_CLASS_NUMBERS
  {
    hide Ascii, BigEndian;
    Handles();
    FlagNames();
    OtherNames();
    LeafNames();
    PackageName();
    NodeNames();
    ClassNames();
  }

  lemma Numbers()
    ensures BigEndian(1, 4) == [0x00, 0x00, 0x00, 0x01]
    ensures BigEndian(-2, 8) == [0xFF, 0xFF, 0xFF, 0xFF, 0xFF, 0xFF, 0xFF, 0xFE]
    ensures BigEndian(0x0102, 8) == [0x00, 0x00, 0x00, 0x00, 0x00, 0x00, 0x01, 0x02]
    ensures BigEndian(5, 2) == [0x00, 0x05] && BigEndian(1, 2) == [0x00, 0x01]
  {}

  const ONE_LEAF := Leaf(false, -2, true, 0x0102, false, Ascii("a.pbo"), Ascii("0"))
  const ONE_FILE := Directory(true, false, true, false, [ONE_LEAF], Ascii("r"))

  /** The root, its list with the one file in it, and the closing null. */
  lemma OneStream()
    ensures Stream(0, ONE_FILE)
         == [0x00, 0x00, 0x00, 0x00]
            + DIRECTORY_CLASS_NUMBERS
            + [0x01, 0x00, 0x01, 0x00]
            + LIST_CLASS_NUMBERS
            + [0x00, 0x00, 0x00, 0x01] + [0x77, 0x04] + [0x00, 0x00, 0x00, 0x01]
            + (LEAF_CLASS_NUMBERS
               + [0x00] + [0xFF, 0xFF, 0xFF, 0xFF, 0xFF, 0xFF, 0xFF, 0xFE]
               + [0x01] + [0x00, 0x00, 0x00, 0x00, 0x00, 0x00, 0x01, 0x02] + [0x00]
               + [0x74] + [0x00, 0x05] + [0x61, 0x2E, 0x70, 0x62, 0x6F]
               + [0x71] + [0x00, 0x7E, 0x00, 0x04]
               + [0x74] + [0x00, 0x01] + [0x30])
            + [0x78]
            + [0x74] + [0x00, 0x01] + [0x72]
            + [0x70]
  {
    hide Ascii, BigEndian, EmitAll;
    StreamBytes(ONE_FILE);
    DirectoryClassNumbers();
    ListClassNumbers();
    Numbers();
    ShortNames();
    OneLeaf(State(0x7E_0007, Definitions(0x7E_0000, 0x7E_0003, 0, 0x7E_0001, 0x7E_0005, 0x7E_0002)));
  }

  lemma OneLeaf(st: State)
    requires st.defs.treeLeaf == 0 && st.defs.stringType == 0x7E_0002 && st.defs.treeDirectoryMemberType == 0x7E_0003
    ensures EmitAll(true, [ONE_LEAF], 0x7E_0004, st).bytes
         == LEAF_CLASS_NUMBERS
            + [0x00] + [0xFF, 0xFF, 0xFF, 0xFF, 0xFF, 0xFF, 0xFF, 0xFE]
            + [0x01] + [0x00, 0x00, 0x00, 0x00, 0x00, 0x00, 0x01, 0x02] + [0x00]
            + [0x74] + [0x00, 0x05] + [0x61, 0x2E, 0x70, 0x62, 0x6F]
            + [0x71] + [0x00, 0x7E, 0x00, 0x04]
            + [0x74] + [0x00, 0x01] + [0x30]
  {
    OneNode(ONE_LEAF, 0x7E_0004, st);
    hide Ascii, BigEndian, EmitAll, EmitLeafDefinition;
    LeafBytes([], ONE_LEAF, 0x7E_0004, st);
    LeafClassBytes(st);
    LeafClassNumbers();
    Numbers();
    Handles();
    ShortNames();
    assert [] + EmitLeafDefinition(true, st).bytes == EmitLeafDefinition(true, st).bytes;
  }

  lemma OneNode(n: Node, parent: nat, st: State)
    requires n.Leaf?
    ensures EmitAll(true, [n], parent, st).bytes == [] + EmitLeaf(true, n, parent, st).bytes
  {
    hide EmitLeaf;
    assert EmitAll(true, [n][1..], parent, EmitLeaf(true, n, parent, st).st).bytes == [];
  }
}
