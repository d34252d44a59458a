/** The whole of a transfer: a fresh context, the header, the tree and the closing null. */
module SyncSend {
  import opened Bytes
  import opened JavaStreamReader
  import opened SyncTree
  import opened SyncWire
  import opened SyncWriter
  import SyncCounting
  import opened SyncTheorems

  /** Nothing gets across, and the header alone is why: with magic and version in its place, a tree
      gets across exactly when its strings fit and its handles suffice. */
  method SendTree(base: Node) returns (bytes: Bytes)
    requires base.Directory?
    ensures bytes == Stream(0, base)
    ensures DecodeStream(bytes) == None
    ensures DecodeStream([0xAC, 0xED, 0x00, 0x05] + bytes[4..]) == Some(base)
       <==> StringsFit(base) && SyncCounting.HandleCount(base) <= 0x8000_0000
  {
    var output := new Output();
    var javaStreamHeader := (STREAM_MAGIC & STREAM_VERSION) as int;
    output.WriteInt32(javaStreamHeader);
    var context := new Context();
    ghost var header := output.data;
    SerializeTopLevel(output, context, base);
    output.PushBack(TC_NULL);
    bytes := output.data;
    assert bytes == header + (Emit(true, base, 0, FRESH).bytes + [TC_NULL]);
    WhatGetsAcross(base, bytes);
  }

  method SerializeTopLevel(output: Output, context: Context, base: Node)
    requires base.Directory? && context.parents == [0, 0, 0] && context.Bookkeeping() == FRESH
    modifies output, context
    ensures output.data == old(output.data) + Emit(true, base, 0, FRESH).bytes
  {
    hide EmitDirectory;
    SerializeDirectory(output, context, base);
  }

  lemma WhatGetsAcross(n: Node, bytes: Bytes)
    requires n.Directory? && bytes == Stream(0, n)
    ensures DecodeStream(bytes) == None
    ensures DecodeStream([0xAC, 0xED, 0x00, 0x05] + bytes[4..]) == Some(n)
       <==> StringsFit(n) && SyncCounting.HandleCount(n) <= 0x8000_0000
  {
    hide Body, Decode, StringsFit, SyncCounting.HandleCount;
    HeaderDecides(0xACED_0005, n);
    HeaderBytes();
    assert bytes[4..] == Body(true, n);
    ZeroHeader();
    assert bytes[..4] == [0, 0, 0, 0];
  }
}
