/** The tree of directories and files of a repository, and how a receiver gets it back from the
    values of an object stream. */
module SyncTree {
  import opened Bytes
  import opened JavaStreamReader

  datatype Node =
    | Leaf(compressed: bool, compressedSize: int64, deleted: bool, size: int64, updated: bool,
           name: Bytes, sha1: Bytes)
    | Directory(deleted: bool, hidden: bool, markAsAddon: bool, updated: bool,
                list: seq<Node>, name: Bytes)

  /** The 16-bit length of a string of the stream can hold it. */
  predicate StringFits(b: Bytes) {
    |b| < 0x1_0000
  }

  predicate StringsFit(n: Node) {
    && StringFits(n.name)
    && (n.Leaf? ==> StringFits(n.sha1))
    && (n.Directory? ==> forall c | c in n.list :: StringsFit(c))
  }

  const DIRECTORY_CLASS := Ascii("fr.soe.a3s.domain.repository.SyncTreeDirectory")
  const LEAF_CLASS := Ascii("fr.soe.a3s.domain.repository.SyncTreeLeaf")
  const ARRAY_LIST_CLASS := Ascii("java.util.ArrayList")
  const LIST_TYPE := Ascii("Ljava/util/List;")
  const STRING_TYPE := Ascii("Ljava/lang/String;")
  const DIRECTORY_TYPE := Ascii("Lfr/soe/a3s/domain/repository/SyncTreeDirectory;")

  const DIRECTORY_UID: Bytes := [0xD8, 0x5F, 0xEB, 0x3C, 0x78, 0x4F, 0x59, 0xF8]
  const ARRAY_LIST_UID: Bytes := [0x78, 0x81, 0xD2, 0x1D, 0x99, 0xC7, 0x61, 0x9D]
  const LEAF_UID: Bytes := [0x7A, 0xCE, 0xD8, 0x4D, 0x24, 0x27, 0x12, 0xD7]

  function BooleanField(name: string): FieldDesc { FieldDesc(FIELD_BOOLEAN, Ascii(name), []) }
  function LongField(name: string): FieldDesc { FieldDesc(FIELD_LONG, Ascii(name), []) }
  function IntField(name: string): FieldDesc { FieldDesc(FIELD_INT, Ascii(name), []) }
  function ObjectField(name: string, typeName: Bytes): FieldDesc {
    FieldDesc(FIELD_OBJECT, Ascii(name), typeName)
  }

  /** The classes the receiver knows. */
  const DIRECTORY_DESC := ClassDesc(DIRECTORY_CLASS, DIRECTORY_UID, SC_SERIALIZABLE,
    [BooleanField("deleted"), BooleanField("hidden"), BooleanField("markAsAddon"), BooleanField("updated"),
     ObjectField("list", LIST_TYPE), ObjectField("name", STRING_TYPE), ObjectField("parent", DIRECTORY_TYPE)])

  const ARRAY_LIST_DESC := ClassDesc(ARRAY_LIST_CLASS, ARRAY_LIST_UID, SC_SERIALIZABLE_WITH_WRITE_METHOD,
    [IntField("size")])

  const LEAF_DESC := ClassDesc(LEAF_CLASS, LEAF_UID, SC_SERIALIZABLE,
    [BooleanField("compressed"), LongField("compressedSize"), BooleanField("deleted"), LongField("size"),
     BooleanField("updated"),
     ObjectField("name", STRING_TYPE), ObjectField("parent", DIRECTORY_TYPE), ObjectField("sha1", STRING_TYPE)])

  /** The parent field of an object: null in the root, and the enclosing directory elsewhere. */
  predicate IsParent(v: Value, parent: Option<nat>) {
    match parent
    case None => v == NullValue
    case Some(h) => v == ReferenceValue(h)
  }

  predicate IsInt64(v: Value) {
    v.LongValue? && -0x8000_0000_0000_0000 <= v.l < 0x8000_0000_0000_0000
  }

  /** A receiver does not mind whether a string is new or was sent before. */
  predicate IsText(v: Value) {
    v.StringValue? || v.SharedString?
  }

  /** The node an object stands for, given the handle of the directory it should lie in. */
  function NodeOf(v: Value, parent: Option<nat>): Option<Node>
    decreases v
  {
    if !v.ObjectValue? then
      None
    else if v.desc == LEAF_DESC then
      LeafOf(v.fields, parent)
    else if v.desc == DIRECTORY_DESC then
      var f := v.fields;
      if && |f| == 7 && f[0].BoolValue? && f[1].BoolValue? && f[2].BoolValue? && f[3].BoolValue?
         && f[4].ObjectValue? && IsText(f[5]) && IsParent(f[6], parent)
         && IsArrayList(f[4])
      then
        match NodesOf(f[4].annotation[1..], v.handle)
        case None => None
        case Some(list) => Some(Directory(f[0].b, f[1].b, f[2].b, f[3].b, list, f[5].s))
      else
        None
    else
      None
  }

  function LeafOf(f: seq<Value>, parent: Option<nat>): Option<Node> {
    if && |f| == 8 && f[0].BoolValue? && IsInt64(f[1]) && f[2].BoolValue? && IsInt64(f[3])
       && f[4].BoolValue? && IsText(f[5]) && IsParent(f[6], parent) && IsText(f[7])
    then
      Some(Leaf(f[0].b, f[1].l, f[2].b, f[3].l, f[4].b, f[5].s, f[7].s))
    else
      None
  }

  /** An ArrayList writes its size as a field, then its capacity as block data, then its elements. */
  predicate IsArrayList(v: Value)
    requires v.ObjectValue?
  {
    && v.desc == ARRAY_LIST_DESC
    && |v.annotation| > 0
    && v.fields == [IntValue(|v.annotation| - 1)]
    && v.annotation[0].BlockValue? && |v.annotation[0].data| == 4
  }

  function NodesOf(vs: seq<Value>, parent: nat): Option<seq<Node>>
    decreases vs
  {
    if vs == [] then
      Some([])
    else
      match (NodeOf(vs[0], Some(parent)), NodesOf(vs[1..], parent))
      case (Some(n), Some(rest)) => Some([n] + rest)
      case _ => None
  }

  /** Every string in v was sent where it stands. */
  ghost predicate Fresh(v: Value) {
    && !v.SharedString?
    && (v.ObjectValue? ==> (forall f | f in v.fields :: Fresh(f)) && (forall a | a in v.annotation :: Fresh(a)))
  }

  /** v stands for n, and shares no string. */
  ghost predicate Means(v: Value, parent: Option<nat>, n: Node) {
    NodeOf(v, parent) == Some(n) && Fresh(v)
  }

  ghost predicate AllMean(vs: seq<Value>, parent: nat, list: seq<Node>) {
    NodesOf(vs, parent) == Some(list) && forall v | v in vs :: Fresh(v)
  }

  /** The receiver: the bytes after the stream header are one object and nothing else, and that
      object is a node without a parent. */
  function Decode(body: Bytes): Option<Node> {
    match ReadObject(body, 0, [])
    case Parsed(v, p, _) => if p == |body| then NodeOf(v, None) else None
    case Refused => None
  }
}
