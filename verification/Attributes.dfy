/** Templates of attributes.py: a Python dictionary as an array of CK_ATTRIBUTE, and back. */
module Attributes {
  import opened Wrappers
  import opened Bytes
  import opened HexCodec

  const ULONG_BYTES: nat := 8
  const ULONG_RANGE: nat := 0x1_0000_0000_0000_0000

  /** The conversion that KEY_TRANSFORMS assigns to an attribute type. */
  datatype Kind = Long | Boolean | Chars | Date | ByteArray | Template

  type Table = map<int, Kind>

  /** Any type not in the table is converted as a byte array. */
  function KindOf(table: Table, key: int): Kind
  {
    if key in table then table[key] else ByteArray
  }

  datatype Value =
    | PyNone
    | PyInt(n: int)
    | PyBool(b: bool)
    | PyStr(text: seq<Byte>)
    | PyBytes(data: seq<Byte>)
    | PyList(values: seq<int>)
    | PyDict(items: seq<Item>)

  /** One entry of a dictionary; dictionaries are in key order and their keys are distinct. */
  datatype Item = Item(key: int, value: Value)

  /** What pValue points to: bytes, or another array of records. */
  datatype Memory = Flat(bytes: seq<Byte>) | Records(records: seq<Attribute>)

  datatype Attribute = Attribute(kind: nat, value: Option<Memory>, length: nat)

  type Conversion = Value -> Option<(Memory, nat)>

  // ----- Python to C -----

  function Truth(b: bool): nat
  {
    if b then 1 else 0
  }

  /** The number a Python int or bool stands for. */
  function Integer(v: Value): Option<int>
  {
    match v
    case PyInt(n) => Some(n)
    case PyBool(b) => Some(Truth(b))
    case _ => None
  }

  /** How to_byte_array takes a value apart. A str is iterable but not by bytes. */
  function AsSource(v: Value): Option<Source>
  {
    match v
    case PyInt(n) => Some(Number(n))
    case PyBool(b) => Some(Number(Truth(b)))
    case PyBytes(data) => Some(Literal(data))
    case PyList(values) => Some(HexCodec.Items(values))
    case PyDict(items) => Some(HexCodec.Items(Keys(items)))
    case _ => None
  }

  function Keys(items: seq<Item>): (keys: seq<int>)
    ensures |keys| == |items| && forall i :: 0 <= i < |items| ==> keys[i] == items[i].key
  {
    if items == [] then [] else Keys(items[..|items| - 1]) + [items[|items| - 1].key]
  }

  function FlatValue(bytes: seq<Byte>): (Memory, nat)
  {
    (Flat(bytes), |bytes|)
  }

  /** One transform, forward: pValue and length, or None where Python raises. */
  function Forward(table: Table, kind: Kind, v: Value): Option<(Memory, nat)>
    decreases v, 1
  {
    match kind
    case Long =>
      if Integer(v).Some? then Some(FlatValue(LittleEndian(Integer(v).value % ULONG_RANGE, ULONG_BYTES))) else None
    case Boolean =>
      if Integer(v).Some? then Some(FlatValue([Truth(Integer(v).value != 0)])) else None
    case Chars =>
      (match v
       case PyStr(text) => Some(FlatValue(text))
       case PyBytes(data) => Some(FlatValue(data))
       case PyList(values) => if values == [] then Some(FlatValue([])) else None
       case _ => None)
    case Date =>
      if v.PyStr? && |v.text| == 8 then Some(FlatValue(v.text)) else None
    case ByteArray =>
      (match AsSource(v)
       case None => None
       case Some(source) =>
         match ToByteArray(source)
         case None => None
         case Some(bytes) => Some(FlatValue(bytes)))
    case Template =>
      if v.PyDict? then
        match CStruct(table, v.items)
        case None => None
        case Some(records) => Some((Records(records), |records|))
      else None
  }

  function Record(key: int, converted: Option<(Memory, nat)>): Option<Attribute>
  {
    match converted
    case None => None
    case Some((memory, length)) => Some(Attribute(key % ULONG_RANGE, Some(memory), length))
  }

  function ItemRecord(table: Table, item: Item): Option<Attribute>
    decreases item, 2
  {
    if item.value == PyNone then Some(Attribute(item.key % ULONG_RANGE, None, 0))
    else Record(item.key, Forward(table, KindOf(table, item.key), item.value))
  }

  /** get_c_struct without transforms of its own, as for every nested template. */
  function CStruct(table: Table, items: seq<Item>): (r: Option<seq<Attribute>>)
    decreases items, 0
  {
    if items == [] then Some([])
    else
      match (CStruct(table, items[..|items| - 1]), ItemRecord(table, items[|items| - 1]))
      case (Some(front), Some(last)) => Some(front + [last])
      case _ => None
  }

  /** One record of the outermost template, where new_transforms come first. */
  function TopRecord(table: Table, own: map<int, Conversion>, item: Item): Option<Attribute>
  {
    if item.value != PyNone && item.key in own then Record(item.key, own[item.key](item.value))
    else ItemRecord(table, item)
  }

  /** get_c_struct: fills an array of records in key order; None if a transform raises. */
  method GetCStruct(table: Table, own: map<int, Conversion>, items: seq<Item>) returns (r: array?<Attribute>)
    ensures r == null <==> exists i :: 0 <= i < |items| && TopRecord(table, own, items[i]).None?
    ensures r != null ==> fresh(r) && r.Length == |items| &&
                          forall i :: 0 <= i < |items| ==> TopRecord(table, own, items[i]) == Some(r[i])
  {
    var records := new Attribute[|items|](_ => Attribute(0, None, 0));
    for index := 0 to |items|
      invariant forall i :: 0 <= i < index ==> TopRecord(table, own, items[i]) == Some(records[i])
    {
      var record := TopRecord(table, own, items[index]);
      if record.None? {
        return null;
      }
      records[index] := record.value;
    }
    r := records;
  }

  // ----- C to Python -----

  /** The record points at enough memory to be read as its type says. Nested templates are
      not read back. */
  predicate Readable(table: Table, a: Attribute)
  {
    a.value.Some? ==>
      match KindOf(table, a.kind)
      case Long => a.value.value.Flat? && |a.value.value.bytes| >= ULONG_BYTES
      case Boolean => a.value.value.Flat? && |a.value.value.bytes| >= 1
      case Template => false
      case _ => a.value.value.Flat? && |a.value.value.bytes| >= a.length
  }

  function Backward(table: Table, a: Attribute, toHex: bool): Value
    requires Readable(table, a)
  {
    if a.value.None? then PyNone
    else
      var bytes := a.value.value.bytes;
      match KindOf(table, a.kind)
      case Long => PyInt(FromLittleEndian(bytes[..ULONG_BYTES]))
      case Boolean => PyBool(bytes[0] != 0)
      case ByteArray => PyBytes(FromByteArray(bytes[..a.length], toHex))
      case _ => PyBytes(bytes[..a.length])
  }

  /** The dictionary an array of records stands for; a repeated type keeps its last value. */
  function Dictionary(table: Table, records: seq<Attribute>, toHex: bool): map<nat, Value>
    requires forall i :: 0 <= i < |records| ==> Readable(table, records[i])
  {
    if records == [] then map[]
    else
      var last := records[|records| - 1];
      Dictionary(table, records[..|records| - 1], toHex)[last.kind := Backward(table, last, toHex)]
  }

  method CStructToPython(table: Table, records: array<Attribute>, toHex: bool) returns (d: map<nat, Value>)
    requires forall i :: 0 <= i < records.Length ==> Readable(table, records[i])
    ensures d == Dictionary(table, records[..], toHex)
  {
    d := map[];
    for i := 0 to records.Length
      invariant d == Dictionary(table, records[..i], toHex)
    {
      assert records[..i + 1][..i] == records[..i];
      if records[i].value.None? {
        d := d[records[i].kind := PyNone];
      } else {
        d := d[records[i].kind := Backward(table, records[i], toHex)];
      }
    }
    assert records[..records.Length] == records[..];
  }
}
