/** Which templates convert, what the records look like, and what reading them back gives. */
module AttributesProofs {
  import opened Wrappers
  import opened Bytes
  import opened ByteCodec
  import opened HexCodec
  import opened Attributes

  // ----- Which values a transform accepts -----

  predicate Bytestring(data: seq<Byte>)
  {
    HasEscape(StripPrefix(data)) || IsHexText(StripPrefix(data))
  }

  predicate ByteValues(values: seq<int>)
  {
    forall i :: 0 <= i < |values| ==> 0 <= values[i] < 256
  }

  ghost predicate Convertible(table: Table, kind: Kind, v: Value)
    decreases v, 1
  {
    match kind
    case Long => v.PyInt? || v.PyBool?
    case Boolean => v.PyInt? || v.PyBool?
    case Chars => v.PyStr? || v.PyBytes? || v == PyList([])
    case Date => v.PyStr? && |v.text| == 8
    case ByteArray =>
      || v.PyInt? || v.PyBool?
      || (v.PyBytes? && Bytestring(v.data))
      || (v.PyList? && ByteValues(v.values))
      || (v.PyDict? && ByteValues(Keys(v.items)))
    case Template => v.PyDict? && forall item :: item in v.items ==> ConvertibleItem(table, item)
  }

  ghost predicate ConvertibleItem(table: Table, item: Item)
    decreases item, 2
  {
    item.value == PyNone || Convertible(table, KindOf(table, item.key), item.value)
  }

  // ----- The shape of the records -----

  /** The record carries its key; nothing stands for None; a nested template is an array of as
      many records as it has entries, counted in records; anything else is bytes, counted. */
  ghost predicate MirrorsItem(table: Table, item: Item, a: Attribute)
    decreases item, 2
  {
    && a.kind == item.key % ULONG_RANGE
    && (item.value == PyNone <==> a.value.None?)
    && (a.value.None? ==> a.length == 0)
    && (a.value.Some? ==>
          if KindOf(table, item.key) == Template
          then item.value.PyDict? && a.value.value.Records? && a.length == |a.value.value.records| &&
               Mirrors(table, item.value.items, a.value.value.records)
          else a.value.value.Flat? && a.length == |a.value.value.bytes|)
  }

  ghost predicate Mirrors(table: Table, items: seq<Item>, records: seq<Attribute>)
    decreases items, 0
  {
    |records| == |items| && forall i :: 0 <= i < |items| ==> MirrorsItem(table, items[i], records[i])
  }

  lemma {:induction false} ItemMirrored(table: Table, item: Item)
    ensures ItemRecord(table, item).Some? <==> ConvertibleItem(table, item)
    ensures ItemRecord(table, item).Some? ==> MirrorsItem(table, item, ItemRecord(table, item).value)
    decreases item, 2
  {
    if item.value.PyDict? && KindOf(table, item.key) == Template {
      TreeMirrored(table, item.value.items);
    }
  }

  /** For templates nested to any depth: conversion succeeds exactly when every value at every
      level is acceptable to its transform, and then the tree of records mirrors the tree of
      dictionaries, one record per key in key order. */
  lemma {:induction false} TreeMirrored(table: Table, items: seq<Item>)
    ensures CStruct(table, items).Some? <==> forall item :: item in items ==> ConvertibleItem(table, item)
    ensures CStruct(table, items).Some? ==> Mirrors(table, items, CStruct(table, items).value)
    decreases items, 0
  {
    if items != [] {
      TreeMirrored(table, items[..|items| - 1]);
      ItemMirrored(table, items[|items| - 1]);
      assert items == items[..|items| - 1] + [items[|items| - 1]];
    }
  }

  lemma CStructStep(table: Table, items: seq<Item>, records: seq<Attribute>)
    requires |records| == |items| && items != []
    ensures var n := |items| - 1;
            CStruct(table, items) == Some(records) <==>
            CStruct(table, items[..n]) == Some(records[..n]) && ItemRecord(table, items[n]) == Some(records[n])
  {
    var n := |items| - 1;
    var front, last := CStruct(table, items[..n]), ItemRecord(table, items[n]);
    if front.Some? && last.Some? {
      assert (front.value + [last.value])[..|front.value|] == front.value;
      assert records == records[..n] + [records[n]];
    }
  }

  /** Without transforms of its own, what get_c_struct fills record by record is that array. */
  lemma {:induction false} RecordsAreCStruct(table: Table, items: seq<Item>, records: seq<Attribute>)
    requires |records| == |items|
    ensures (forall i :: 0 <= i < |items| ==> TopRecord(table, map[], items[i]) == Some(records[i])) <==>
            CStruct(table, items) == Some(records)
  {
    if items != [] {
      var n := |items| - 1;
      RecordsAreCStruct(table, items[..n], records[..n]);
      CStructStep(table, items, records);
    }
  }

  // ----- Reading a flat template back -----

  /** What a value becomes on the way to C and back, by attribute kind. */
  function Normal(kind: Kind, v: Value, toHex: bool): Value
    requires v == PyNone || (kind != Template && Convertible(map[], kind, v))
  {
    if v == PyNone then PyNone
    else
      match kind
      case Long => PyInt(Integer(v).value % ULONG_RANGE)
      case Boolean => PyBool(Integer(v).value != 0)
      case Chars => PyBytes(match v case PyStr(t) => t case PyBytes(t) => t case _ => [])
      case Date => PyBytes(v.text)
      case ByteArray =>
        var bytes := NormalBytes(v);
        PyBytes(if toHex then Hexlify(bytes) else bytes)
      case Template => PyNone
  }

  /** Numbers, and hex text, are spelled in as few bytes as they take; raw bytes lose a leading
      "0x"; lists are taken as they are, and a dictionary as the list of its keys. */
  function NormalBytes(v: Value): seq<Byte>
    requires Convertible(map[], ByteArray, v)
  {
    match v
    case PyInt(n) => if n >= 0 then Shortest(n) else IntBytes(n)
    case PyBool(b) => [Truth(b)]
    case PyBytes(data) =>
      if HasEscape(StripPrefix(data)) then StripPrefix(data) else Shortest(ParseHex(StripPrefix(data)))
    case PyList(values) => AsBytes(values).value
    case PyDict(items) => AsBytes(Keys(items)).value
    case _ => []
  }

  lemma FlatConversion(table: Table, kind: Kind, v: Value)
    requires kind != Template
    ensures Convertible(table, kind, v) == Convertible(map[], kind, v)
  {
  }

  lemma SourceBytes(v: Value)
    requires Convertible(map[], ByteArray, v)
    ensures AsSource(v).Some? && ToByteArray(AsSource(v).value) == Some(NormalBytes(v))
  {
    if Integer(v).Some? && Integer(v).value >= 0 {
      IntBytesAreShortest(Integer(v).value);
    } else if v.PyBytes? && !HasEscape(StripPrefix(v.data)) {
      IntBytesAreShortest(ParseHex(StripPrefix(v.data)));
    }
  }

  lemma ByteArrayForward(table: Table, v: Value)
    requires Convertible(map[], ByteArray, v)
    ensures Forward(table, ByteArray, v) == Some(FlatValue(NormalBytes(v)))
  {
    SourceBytes(v);
  }

  lemma UlongRange()
    ensures Power256(ULONG_BYTES) == ULONG_RANGE
  {
    assert Power256(4) == 0x1_0000_0000;
    assert Power256(8) == 256 * (256 * (256 * (256 * Power256(4))));
  }

  lemma LongReadsBack(n: int)
    ensures FromLittleEndian(LittleEndian(n % ULONG_RANGE, ULONG_BYTES)) == n % ULONG_RANGE
  {
    UlongRange();
    LittleEndianRoundTrip(n % ULONG_RANGE, ULONG_BYTES);
  }

  /** What is in memory for each kind: a CK_ULONG of eight bytes, least significant first; one
      byte, 0 or 1; the characters; or the bytes. The length counts exactly that. */
  lemma WrittenBytes(table: Table, kind: Kind, v: Value)
    requires kind != Template && Convertible(map[], kind, v)
    ensures var r := Forward(table, kind, v);
            && r.Some? && r.value.0.Flat? && r.value.1 == |r.value.0.bytes|
            && var bytes := r.value.0.bytes;
               match kind
               case Long =>
                 var number := match v case PyInt(n) => n case PyBool(b) => if b then 1 else 0 case _ => 0;
                 var n := number % 0x1_0000_0000_0000_0000;
                 && |bytes| == 8 && FromLittleEndian(bytes) == n
                 && forall i :: 0 <= i < 8 ==> bytes[i] == n / Power256(i) % 256
               case Boolean =>
                 bytes == if v == PyInt(0) || v == PyBool(false) then [0] else [1]
               case Chars =>
                 (match v case PyStr(text) => bytes == text case PyBytes(data) => bytes == data case _ => bytes == [])
               case Date => bytes == v.text
               case ByteArray => bytes == NormalBytes(v)
  {
    match kind {
      case Long =>
        var n := Integer(v).value % ULONG_RANGE;
        LongReadsBack(Integer(v).value);
        forall i | 0 <= i < 8
          ensures LittleEndian(n, 8)[i] == n / Power256(i) % 256
        {
          LittleEndianAt(n, 8, i);
        }
      case ByteArray => ByteArrayForward(table, v);
      case _ =>
    }
  }

  /** A transform of one's own decides alone, whatever the table says. A type without one goes by
      the table, and one that is not there either is converted as a byte array. */
  lemma WhichTransform(table: Table, own: map<int, Conversion>, item: Item)
    requires item.value != PyNone
    ensures item.key in own ==>
              var r := TopRecord(table, own, item);
              match own[item.key](item.value)
              case None => r == None
              case Some((memory, length)) => r == Some(Attribute(item.key % ULONG_RANGE, Some(memory), length))
    ensures item.key !in own && item.key in table ==>
              var r := TopRecord(table, own, item);
              match Forward(table, table[item.key], item.value)
              case None => r == None
              case Some((memory, length)) => r == Some(Attribute(item.key % ULONG_RANGE, Some(memory), length))
    ensures item.key !in own && item.key !in table && Convertible(map[], ByteArray, item.value) ==>
              TopRecord(table, own, item) ==
              Some(Attribute(item.key % ULONG_RANGE, Some(Flat(NormalBytes(item.value))), |NormalBytes(item.value)|))
    ensures item.key !in own && item.key !in table && !Convertible(map[], ByteArray, item.value) ==>
              TopRecord(table, own, item) == None
  {
    if item.key !in own && item.key !in table {
      if Convertible(map[], ByteArray, item.value) {
        ByteArrayForward(table, item.value);
      } else {
        ItemMirrored(table, item);
        FlatConversion(table, ByteArray, item.value);
      }
    }
  }

  /** Reading any record back, whoever wrote its memory: a nonzero byte is true, a CK_ULONG takes
      eight bytes, and the rest as many as the record counts. */
  lemma MemoryReadsBack(table: Table, key: nat, bytes: seq<Byte>, tail: seq<Byte>, n: nat, toHex: bool)
    ensures var a, kind := Attribute(key, Some(Flat(bytes + tail)), n), if key in table then table[key] else ByteArray;
            && (kind == Boolean && |bytes| == 1 ==>
                  Readable(table, a) && Backward(table, a, toHex) == PyBool(bytes != [0]))
            && (kind == Long && |bytes| == 8 ==>
                  Readable(table, a) && Backward(table, a, toHex) == PyInt(FromLittleEndian(bytes)))
            && (kind in {Chars, Date} && n == |bytes| ==>
                  Readable(table, a) && Backward(table, a, toHex) == PyBytes(bytes))
            && (kind == ByteArray && n == |bytes| ==>
                  Readable(table, a) && Backward(table, a, toHex) == PyBytes(if toHex then Hexlify(bytes) else bytes))
            && Backward(table, Attribute(key, None, n), toHex) == PyNone
  {
    FirstBytes(bytes, bytes + tail);
  }

  /** The same record, perhaps with more memory behind its value than it counts: such as a token
      leaves that has put a short value into a long buffer. */
  predicate WithSlack(a: Attribute, b: Attribute)
  {
    && b.kind == a.kind && b.length == a.length
    && match a.value
       case Some(Flat(bytes)) => b.value.Some? && b.value.value.Flat? && bytes <= b.value.value.bytes
       case _ => b.value == a.value
  }

  lemma FirstBytes(bytes: seq<Byte>, more: seq<Byte>)
    requires bytes <= more
    ensures more[..|bytes|] == bytes
  {
  }

  lemma FlatRecord(table: Table, item: Item) returns (bytes: seq<Byte>)
    requires 0 <= item.key < ULONG_RANGE && item.value != PyNone && KindOf(table, item.key) != Template
    requires ItemRecord(table, item).Some?
    ensures Convertible(map[], KindOf(table, item.key), item.value)
    ensures Forward(table, KindOf(table, item.key), item.value) == Some((Flat(bytes), |bytes|))
    ensures ItemRecord(table, item) == Some(Attribute(item.key, Some(Flat(bytes)), |bytes|))
  {
    ItemMirrored(table, item);
    FlatConversion(table, KindOf(table, item.key), item.value);
    WrittenBytes(table, KindOf(table, item.key), item.value);
    bytes := Forward(table, KindOf(table, item.key), item.value).value.0.bytes;
  }

  /** What is written, read back, is the normal form. */
  lemma WrittenIsNormal(table: Table, kind: Kind, v: Value, bytes: seq<Byte>, toHex: bool)
    requires v != PyNone && kind != Template && Convertible(map[], kind, v)
    requires Forward(table, kind, v) == Some((Flat(bytes), |bytes|))
    ensures (kind == Boolean ==> |bytes| == 1) && (kind == Long ==> |bytes| == 8)
    ensures Normal(kind, v, toHex) ==
            match kind
            case Boolean => PyBool(bytes != [0])
            case Long => PyInt(FromLittleEndian(bytes))
            case ByteArray => PyBytes(if toHex then Hexlify(bytes) else bytes)
            case _ => PyBytes(bytes)
  {
    WrittenBytes(table, kind, v);
  }

  lemma BytesRoundTrip(table: Table, key: nat, v: Value, bytes: seq<Byte>, tail: seq<Byte>, toHex: bool)
    requires v != PyNone && KindOf(table, key) != Template && Convertible(map[], KindOf(table, key), v)
    requires Forward(table, KindOf(table, key), v) == Some((Flat(bytes), |bytes|))
    ensures var b := Attribute(key, Some(Flat(bytes + tail)), |bytes|);
            Readable(table, b) && Backward(table, b, toHex) == Normal(KindOf(table, key), v, toHex)
  {
    WrittenIsNormal(table, KindOf(table, key), v, bytes, toHex);
    MemoryReadsBack(table, key, bytes, tail, |bytes|, toHex);
  }

  /** One attribute there and back, whatever memory follows its value. */
  lemma ItemRoundTrip(table: Table, item: Item, b: Attribute, toHex: bool)
    requires 0 <= item.key < ULONG_RANGE
    requires item.value == PyNone || KindOf(table, item.key) != Template
    requires ItemRecord(table, item).Some? && WithSlack(ItemRecord(table, item).value, b)
    ensures var kind := KindOf(table, item.key);
            && b.kind == item.key && Readable(table, b)
            && (item.value == PyNone || Convertible(map[], kind, item.value))
            && Backward(table, b, toHex) == Normal(kind, item.value, toHex)
  {
    if item.value != PyNone {
      var bytes := FlatRecord(table, item);
      var tail := b.value.value.bytes[|bytes|..];
      assert b.value.value.bytes == bytes + tail;
      BytesRoundTrip(table, item.key, item.value, bytes, tail, toHex);
    }
  }

  /** The last record of a type is the one the dictionary shows. */
  lemma {:induction false} DictionaryShowsLast(table: Table, records: seq<Attribute>, toHex: bool, i: nat)
    requires forall j :: 0 <= j < |records| ==> Readable(table, records[j])
    requires i < |records| && forall j :: i < j < |records| ==> records[j].kind != records[i].kind
    ensures var d := Dictionary(table, records, toHex);
            records[i].kind in d && d[records[i].kind] == Backward(table, records[i], toHex)
  {
    if i < |records| - 1 {
      DictionaryShowsLast(table, records[..|records| - 1], toHex, i);
    }
  }

  lemma {:induction false} DictionaryKeys(table: Table, records: seq<Attribute>, toHex: bool, k: nat)
    requires forall j :: 0 <= j < |records| ==> Readable(table, records[j])
    ensures k in Dictionary(table, records, toHex) ==> exists i :: 0 <= i < |records| && records[i].kind == k
  {
    if records != [] && k != records[|records| - 1].kind {
      DictionaryKeys(table, records[..|records| - 1], toHex, k);
    }
  }

  /** A flat template whose keys fit a CK_ULONG, once converted, reads back with the same keys,
      each value in its normal form. The records are any that get_c_struct produces, and there
      may be more memory behind each value than its record counts. */
  lemma TemplateRoundTrip(table: Table, items: seq<Item>, records: seq<Attribute>, read: seq<Attribute>, toHex: bool)
    requires forall i, j :: 0 <= i < j < |items| ==> items[i].key != items[j].key
    requires forall i :: 0 <= i < |items| ==> 0 <= items[i].key < ULONG_RANGE
    requires forall i :: 0 <= i < |items| ==> items[i].value == PyNone || KindOf(table, items[i].key) != Template
    requires |records| == |items| == |read|
    requires forall i :: 0 <= i < |items| ==> TopRecord(table, map[], items[i]) == Some(records[i])
    requires forall i :: 0 <= i < |items| ==> WithSlack(records[i], read[i])
    ensures forall i :: 0 <= i < |read| ==> Readable(table, read[i])
    ensures var d := Dictionary(table, read, toHex);
            && (forall k :: k in d <==> exists i :: 0 <= i < |items| && items[i].key == k)
            && (forall i :: 0 <= i < |items| ==>
                  var item := items[i];
                  && (item.value == PyNone || Convertible(map[], KindOf(table, item.key), item.value))
                  && item.key in d && d[item.key] == Normal(KindOf(table, item.key), item.value, toHex))
  {
    forall i | 0 <= i < |items|
      ensures read[i].kind == items[i].key && Readable(table, read[i])
      ensures items[i].value == PyNone || Convertible(map[], KindOf(table, items[i].key), items[i].value)
      ensures Backward(table, read[i], toHex) == Normal(KindOf(table, items[i].key), items[i].value, toHex)
    {
      ItemRoundTrip(table, items[i], read[i], toHex);
    }
    var d := Dictionary(table, read, toHex);
    forall i | 0 <= i < |items|
      ensures items[i].key in d && d[items[i].key] == Backward(table, read[i], toHex)
    {
      DictionaryShowsLast(table, read, toHex, i);
    }
    forall k | k in d
      ensures exists i :: 0 <= i < |items| && items[i].key == k
    {
      DictionaryKeys(table, read, toHex, k);
    }
  }

  /** A number in a CK_ULONG comes back unchanged exactly if it is in range, negative ones
      excluded; a bool always does. */
  lemma NormalIsIdentityInRange(n: int, b: bool)
    ensures Normal(Long, PyInt(n), true) == PyInt(n) <==> 0 <= n < ULONG_RANGE
    ensures Normal(Boolean, PyBool(b), true) == PyBool(b)
  {
  }
}
