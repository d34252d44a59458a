/** A reader of the Java Object Serialization Stream Protocol, grammar of section 6.4 of the
    Java Object Serialization Specification, with the handle table of section 6.4.1.

    The reader is self-describing: it knows no class. It learns the fields of a class from the
    class descriptor in the stream and reads the values of an object by them. It starts after
    the stream header and covers newObject, newString, newClassDesc, prevObject, nullReference,
    blockdata and endBlockData. It refuses arrays, enums, proxies, exceptions, resets, non-null
    superclasses and class annotations, none of which the writer emits. */
module JavaStreamReader {
  import opened Bytes

  const TC_NULL: byte := 0x70
  const TC_REFERENCE: byte := 0x71
  const TC_CLASSDESC: byte := 0x72
  const TC_OBJECT: byte := 0x73
  const TC_STRING: byte := 0x74
  const TC_BLOCKDATA: byte := 0x77
  const TC_ENDBLOCKDATA: byte := 0x78

  const FIELD_INT: byte := 0x49
  const FIELD_LONG: byte := 0x4A
  const FIELD_OBJECT: byte := 0x4C
  const FIELD_BOOLEAN: byte := 0x5A

  const SC_SERIALIZABLE: byte := 0x02
  const SC_SERIALIZABLE_WITH_WRITE_METHOD: byte := 0x03

  const BASE_WIRE_HANDLE: nat := 0x7E_0000
  /** The table is indexed by a Java int. */
  const MAX_HANDLES: nat := 0x8000_0000

  /** A field of a class. `typeName` is empty for a primitive field. */
  datatype FieldDesc = FieldDesc(code: byte, name: Bytes, typeName: Bytes)

  datatype ClassDesc = ClassDesc(name: Bytes, uid: Bytes, flags: byte, fields: seq<FieldDesc>)

  /** What a handle stands for. An object has its handle before its fields are read. */
  datatype Entry =
    | ClassEntry(desc: ClassDesc)
    | StringEntry(s: Bytes)
    | ObjectEntry(className: Bytes)

  type Table = seq<Entry>

  /** A value read from the stream. A back-reference to a string is resolved to that string; a
      back-reference to an object stays a reference, since the object may still be unfinished. */
  datatype Value =
    | BoolValue(b: bool)
    | IntValue(i: int)
    | LongValue(l: int)
    | NullValue
    | StringValue(handle: nat, s: Bytes)
    | SharedString(handle: nat, s: Bytes)
    | ReferenceValue(handle: nat)
    | BlockValue(data: Bytes)
    | ObjectValue(handle: nat, desc: ClassDesc, fields: seq<Value>, annotation: seq<Value>)

  /** A value, the position after it and the handle table after it, or a refusal. */
  datatype Parsed<+T> = Parsed(value: T, pos: nat, table: Table) | Refused {
    predicate IsFailure() { Refused? }
    function PropagateFailure<U>(): Parsed<U> requires Refused? { Refused }
    function Extract(): (T, nat, Table) requires Parsed? { (value, pos, table) }
  }

  function ReadBytes(s: Bytes, p: nat, table: Table, n: nat): Parsed<Bytes> {
    if p + n <= |s| then Parsed(s[p..p + n], p + n, table) else Refused
  }

  function ReadUtf(s: Bytes, p: nat, table: Table): Parsed<Bytes> {
    var (length, p1, _) :- ReadBytes(s, p, table, 2);
    ReadBytes(s, p1, table, Unsigned(length))
  }

  /** newHandle: the next number goes to `e`. */
  function NewHandle(table: Table, p: nat, e: Entry): Parsed<nat> {
    if |table| < MAX_HANDLES then Parsed(|table|, p, table + [e]) else Refused
  }

  /** The four bytes after TC_REFERENCE, as an index into the table. */
  function ReadHandle(s: Bytes, p: nat, table: Table): (r: Parsed<nat>)
    ensures r.Parsed? ==> r.value < |table| && r.pos == p + 4 <= |s| && r.table == table
  {
    var (wire, p1, _) :- ReadBytes(s, p, table, 4);
    var h := Unsigned(wire) - BASE_WIRE_HANDLE;
    if 0 <= h < |table| then Parsed(h, p1, table) else Refused
  }

  /** newString, after its TC_STRING. */
  function ReadNewString(s: Bytes, p: nat, table: Table): (r: Parsed<Value>)
    ensures r.Parsed? ==> p < r.pos <= |s|
  {
    var (text, p1, _) :- ReadUtf(s, p, table);
    var (h, p2, table1) :- NewHandle(table, p1, StringEntry(text));
    Parsed(StringValue(h, text), p2, table1)
  }

  /** className1: a new string or a back-reference to one. */
  function ReadTypeName(s: Bytes, p: nat, table: Table): (r: Parsed<Bytes>)
    ensures r.Parsed? ==> p < r.pos <= |s|
  {
    if p < |s| && s[p] == TC_STRING then
      var (v, p1, table1) :- ReadNewString(s, p + 1, table);
      if v.StringValue? then Parsed(v.s, p1, table1) else Refused
    else if p < |s| && s[p] == TC_REFERENCE then
      var (h, p1, _) :- ReadHandle(s, p + 1, table);
      if table[h].StringEntry? then Parsed(table[h].s, p1, table) else Refused
    else
      Refused
  }

  function ReadFieldDesc(s: Bytes, p: nat, table: Table): (r: Parsed<FieldDesc>)
    ensures r.Parsed? ==> p < r.pos <= |s|
  {
    if p >= |s| then
      Refused
    else
      var (name, p1, _) :- ReadUtf(s, p + 1, table);
      if s[p] in {FIELD_INT, FIELD_LONG, FIELD_BOOLEAN} then
        Parsed(FieldDesc(s[p], name, []), p1, table)
      else if s[p] == FIELD_OBJECT then
        var (typeName, p2, table1) :- ReadTypeName(s, p1, table);
        Parsed(FieldDesc(s[p], name, typeName), p2, table1)
      else
        Refused
  }

  function ReadFieldDescs(s: Bytes, p: nat, table: Table, count: nat): (r: Parsed<seq<FieldDesc>>)
    ensures r.Parsed? ==> p <= r.pos
    decreases count
  {
    if count == 0 then
      Parsed([], p, table)
    else
      var (field, p1, table1) :- ReadFieldDesc(s, p, table);
      var (rest, p2, table2) :- ReadFieldDescs(s, p1, table1, count - 1);
      Parsed([field] + rest, p2, table2)
  }

  /** The entry of handle h is final now. */
  function Completed(table: Table, h: nat, e: Entry): Table {
    if h < |table| then table[h := e] else table
  }

  /** classDescInfo of the class whose handle is h, with an empty annotation and no superclass.
      It completes the entry of the class. */
  function ReadClassDescInfo(s: Bytes, p: nat, table: Table, name: Bytes, uid: Bytes, h: nat): (r: Parsed<ClassDesc>)
    ensures r.Parsed? ==> p < r.pos <= |s|
  {
    var (flags, p1, _) :- ReadBytes(s, p, table, 1);
    var (count, p2, _) :- ReadBytes(s, p1, table, 2);
    var (fields, p3, table1) :- ReadFieldDescs(s, p2, table, Unsigned(count));
    var desc := ClassDesc(name, uid, flags[0], fields);
    if && flags[0] in {SC_SERIALIZABLE, SC_SERIALIZABLE_WITH_WRITE_METHOD}
       && p3 + 2 <= |s| && s[p3] == TC_ENDBLOCKDATA && s[p3 + 1] == TC_NULL
    then
      Parsed(desc, p3 + 2, Completed(table1, h, ClassEntry(desc)))
    else
      Refused
  }

  /** newClassDesc, after its TC_CLASSDESC. The descriptor has its handle before its fields are read. */
  function ReadNewClassDesc(s: Bytes, p: nat, table: Table): (r: Parsed<ClassDesc>)
    ensures r.Parsed? ==> p < r.pos <= |s|
  {
    var (name, p1, _) :- ReadUtf(s, p, table);
    var (uid, p2, _) :- ReadBytes(s, p1, table, 8);
    var (h, p3, table1) :- NewHandle(table, p2, ClassEntry(ClassDesc(name, uid, 0, [])));
    ReadClassDescInfo(s, p3, table1, name, uid, h)
  }

  function ReadClassDesc(s: Bytes, p: nat, table: Table): (r: Parsed<ClassDesc>)
    ensures r.Parsed? ==> p < r.pos <= |s|
  {
    if p < |s| && s[p] == TC_CLASSDESC then
      ReadNewClassDesc(s, p + 1, table)
    else if p < |s| && s[p] == TC_REFERENCE then
      var (h, p1, _) :- ReadHandle(s, p + 1, table);
      if table[h].ClassEntry? then Parsed(table[h].desc, p1, table) else Refused
    else
      Refused
  }

  function ReadObject(s: Bytes, p: nat, table: Table): (r: Parsed<Value>)
    ensures r.Parsed? ==> p < r.pos <= |s|
    decreases |s| - p, 0
  {
    if p >= |s| then
      Refused
    else if s[p] == TC_NULL then
      Parsed(NullValue, p + 1, table)
    else if s[p] == TC_STRING then
      ReadNewString(s, p + 1, table)
    else if s[p] == TC_REFERENCE then
      var (h, p1, _) :- ReadHandle(s, p + 1, table);
      match table[h]
      case StringEntry(text) => Parsed(SharedString(h, text), p1, table)
      case ObjectEntry(_) => Parsed(ReferenceValue(h), p1, table)
      case ClassEntry(_) => Refused
    else if s[p] == TC_OBJECT then
      ReadNewObject(s, p + 1, table)
    else
      Refused
  }

  /** newObject, after its TC_OBJECT. The object has its handle before its values are read. */
  function ReadNewObject(s: Bytes, p: nat, table: Table): (r: Parsed<Value>)
    ensures r.Parsed? ==> p < r.pos <= |s|
    decreases |s| - p, 0
  {
    var (desc, p1, table1) :- ReadClassDesc(s, p, table);
    var (h, _, table2) :- NewHandle(table1, p1, ObjectEntry(desc.name));
    var (fields, p2, table3) :- ReadValues(s, p1, table2, desc.fields, 0);
    if desc.flags == SC_SERIALIZABLE_WITH_WRITE_METHOD then
      var (annotation, p3, table4) :- ReadContents(s, p2, table3);
      Parsed(ObjectValue(h, desc, fields, annotation), p3, table4)
    else
      Parsed(ObjectValue(h, desc, fields, []), p2, table3)
  }

  function ReadValue(s: Bytes, p: nat, table: Table, code: byte): (r: Parsed<Value>)
    ensures r.Parsed? ==> p < r.pos <= |s|
    decreases |s| - p, 1
  {
    if code == FIELD_BOOLEAN then
      var (b, p1, _) :- ReadBytes(s, p, table, 1);
      Parsed(BoolValue(b[0] != 0), p1, table)
    else if code == FIELD_INT then
      var (b, p1, _) :- ReadBytes(s, p, table, 4);
      Parsed(IntValue(Signed(b)), p1, table)
    else if code == FIELD_LONG then
      var (b, p1, _) :- ReadBytes(s, p, table, 8);
      Parsed(LongValue(Signed(b)), p1, table)
    else if code == FIELD_OBJECT then
      ReadObject(s, p, table)
    else
      Refused
  }

  /** The values of fields k, k + 1, ... in the order of the descriptor. */
  function ReadValues(s: Bytes, p: nat, table: Table, fields: seq<FieldDesc>, k: nat): (r: Parsed<seq<Value>>)
    requires k <= |fields|
    ensures r.Parsed? && p <= |s| ==> p <= r.pos <= |s|
    decreases |s| - p, 2, |fields| - k
  {
    if k == |fields| then
      Parsed([], p, table)
    else
      var (v, p1, table1) :- ReadValue(s, p, table, fields[k].code);
      var (rest, p2, table2) :- ReadValues(s, p1, table1, fields, k + 1);
      Parsed([v] + rest, p2, table2)
  }

  /** contents endBlockData. */
  function ReadContents(s: Bytes, p: nat, table: Table): (r: Parsed<seq<Value>>)
    ensures r.Parsed? ==> p < r.pos <= |s|
    decreases |s| - p, 2
  {
    if p >= |s| then
      Refused
    else if s[p] == TC_ENDBLOCKDATA then
      Parsed([], p + 1, table)
    else if s[p] == TC_BLOCKDATA then
      var (size, p1, _) :- ReadBytes(s, p + 1, table, 1);
      var (data, p2, _) :- ReadBytes(s, p1, table, size[0]);
      var (rest, p3, table1) :- ReadContents(s, p2, table);
      Parsed([BlockValue(data)] + rest, p3, table1)
    else
      var (v, p1, table1) :- ReadObject(s, p, table);
      var (rest, p2, table2) :- ReadContents(s, p1, table1);
      Parsed([v] + rest, p2, table2)
  }
}
