/**
  A host's view of the data sets: a reader that knows only the offsets of the Media Transfer Protocol 1.1
  (sections 5.1 to 5.3 and Appendix B) recovers from each data set the fields of the catalogue entry.
 */
module MtpInfo {
  import opened Bytes
  import opened Utf8
  import opened MtpCatalog
  import opened MtpString
  import opened MtpWire
  import opened MtpServer
  import Boxes

  // ---- reading numbers and strings ----

  function ReadLe16(d: Text, at: nat): (n: nat)
    requires at + 2 <= |d|
    ensures n < U16
  {
    d[at] as int + d[at + 1] as int * 0x100
  }

  function ReadLe64(d: Text, at: nat): nat
    requires at + 8 <= |d|
  {
    ReadLe32(d, at) + ReadLe32(d, at + 4) * U32
  }

  function ReadUnits(d: Text, at: nat, count: nat): (u: seq<Unit>)
    requires at + 2 * count <= |d|
    ensures |u| == count
  {
    seq(count, i requires 0 <= i < count => ReadLe16(d, at + 2 * i))
  }

  /** A string and the offset behind it. */
  datatype Field = Field(text: seq<Scalar>, next: nat)

  /** A count of units with the zero unit at their end; no units at all for the empty string. */
  function ReadString(d: Text, at: nat): Option<Field> {
    if at >= |d| then None
    else if d[at] == 0 then Some(Field([], at + 1))
    else if at + 1 + 2 * d[at] as int > |d| then None
    else
      var count := d[at] as int;
      var units := ReadUnits(d, at + 1, count);
      if units[count - 1] != 0 then None
      else match DecodeUnits(units[..count - 1])
        case None => None
        case Some(text) => Some(Field(text, at + 1 + 2 * count))
  }

  lemma {:induction false} Le16Reads(n: Short, d: Text, at: nat)
    requires Boxes.At(d, at, Le16(n))
    ensures at + 2 <= |d| && ReadLe16(d, at) == n
  {
    var piece := d[at..at + 2];
    assert d[at] == piece[0] && d[at + 1] == piece[1];
  }

  lemma {:induction false} Le64Reads(n: Quad, d: Text, at: nat)
    requires Boxes.At(d, at, Le64(n))
    ensures at + 8 <= |d| && ReadLe64(d, at) == n
  {
    hide Le32, ReadLe32;
    Boxes.AtParts(d, at, Le32(n % U32), Le32(n / U32));
    Le32Reads(n % U32, d, at);
    Le32Reads(n / U32, d, at + 4);
  }

  lemma {:induction false} UnitsRead(units: seq<Unit>, d: Text, at: nat)
    requires Boxes.At(d, at, UnitBytes(units))
    ensures ReadUnits(d, at, |units|) == units
  {
    if units != [] {
      var last := |units| - 1;
      hide Le16, ReadLe16;
      Boxes.AtParts(d, at, UnitBytes(units[..last]), UnitPair(units[last]));
      UnitsRead(units[..last], d, at);
      PairReads(units[last], d, at + 2 * last);
      forall i | 0 <= i < |units| ensures ReadLe16(d, at + 2 * i) == units[i] {
        if i < last { assert ReadUnits(d, at, last)[i] == units[..last][i]; }
      }
    }
  }

  lemma {:induction false} PairReads(u: Unit, d: Text, at: nat)
    requires Boxes.At(d, at, UnitPair(u))
    ensures at + 2 <= |d| && ReadLe16(d, at) == u
  {
    assert UnitPair(u) == Le16(u);
    Le16Reads(u, d, at);
  }

  /** What a host shows for a text of the device. */
  function Shown(text: Text): seq<Scalar> { CodePoints(CString(text), MAX_UNITS) }

  /** A written string reads as the code points of its text, and the reader stops behind it. */
  lemma {:induction false} StringReads(s: Text, d: Text, at: nat)
    requires Boxes.At(d, at, Encoded(s))
    ensures ReadString(d, at) == Some(Field(CodePoints(s, MAX_UNITS), at + |Encoded(s)|))
  {
    hide ReadUnits, DecodeUnits, Units, UnitBytes, CodePoints;
    var piece := Encoded(s);
    assert d[at] == d[at..at + |piece|][0] == piece[0];
    if s == [] {
      NoCodePoints();
    } else {
      var units := Units(s, MAX_UNITS);
      assert piece == ([|units| + 1] + UnitBytes(units)) + UnitPair(0);
      var all := units + [0];
      Boxes.AtParts(d, at, [|units| + 1] + UnitBytes(units), UnitPair(0));
      Boxes.AtParts(d, at, [|units| + 1], UnitBytes(units));
      EndedUnits(units, d, at + 1);
      UnitsDecode(s, MAX_UNITS);
      assert all[..|units|] == units;
    }
  }

  lemma {:induction false} NoCodePoints()
    ensures CodePoints([], MAX_UNITS) == []
  {
  }

  lemma {:induction false} EndedUnits(units: seq<Unit>, d: Text, at: nat)
    requires Boxes.At(d, at, UnitBytes(units)) && Boxes.At(d, at + 2 * |units|, UnitPair(0))
    ensures ReadUnits(d, at, |units| + 1) == units + [0]
  {
    hide ReadLe16;
    UnitsRead(units, d, at);
    PairReads(0, d, at + 2 * |units|);
    forall i | 0 <= i < |units| ensures ReadLe16(d, at + 2 * i) == units[i] {
      assert ReadUnits(d, at, |units|)[i] == units[i];
    }
  }

  // ---- ObjectInfo ----

  datatype Info = Info(storage: nat, format: nat, protection: nat, size: nat,
                       thumbFormat: nat, thumbSize: nat, thumbWidth: nat, thumbHeight: nat,
                       width: nat, height: nat, depth: nat, parent: nat,
                       association: nat, description: nat, sequence: nat)

  datatype Names = Names(name: seq<Scalar>, created: seq<Scalar>, modified: seq<Scalar>, keywords: seq<Scalar>, next: nat)

  function ReadHead(d: Text): Info
    requires |d| >= 52
  {
    Info(ReadLe32(d, 0), ReadLe16(d, 4), ReadLe16(d, 6), ReadLe32(d, 8),
         ReadLe16(d, 12), ReadLe32(d, 14), ReadLe32(d, 18), ReadLe32(d, 22),
         ReadLe32(d, 26), ReadLe32(d, 30), ReadLe32(d, 34), ReadLe32(d, 38),
         ReadLe16(d, 42), ReadLe32(d, 44), ReadLe32(d, 48))
  }

  function ReadNames(d: Text, at: nat): Option<Names> {
    var name :- ReadString(d, at);
    var created :- ReadString(d, name.next);
    var modified :- ReadString(d, created.next);
    var keywords :- ReadString(d, modified.next);
    Some(Names(name.text, created.text, modified.text, keywords.text, keywords.next))
  }

  lemma {:induction false} HeadFields(d: Text, e: Entry)
    requires e.size < U32 && Boxes.At(d, 0, InfoHead(e))
    ensures Boxes.At(d, 0, Le32(STORAGE_ID)) && Boxes.At(d, 4, Le16(e.format)) && Boxes.At(d, 6, Le16(1))
    ensures Boxes.At(d, 8, Le32(e.size)) && Boxes.At(d, 12, Le16(if e.thumbSize != 0 then 0x3804 else 0))
    ensures Boxes.At(d, 14, Le32(e.thumbSize)) && Boxes.At(d, 18, Le32(e.thumbWidth)) && Boxes.At(d, 22, Le32(e.thumbHeight))
    ensures Boxes.At(d, 26, Le32(e.width)) && Boxes.At(d, 30, Le32(e.height)) && Boxes.At(d, 34, Le32(0))
    ensures Boxes.At(d, 38, Le32(e.parent)) && Boxes.At(d, 42, Le16(if e.format == FOLDER_FORMAT then 1 else 0))
    ensures Boxes.At(d, 44, Le32(0)) && Boxes.At(d, 48, Le32(0))
  {
    hide Le16, Le32, Boxes.At;
    var a := Le32(STORAGE_ID);
    var b := a + Le16(e.format);
    var c := b + Le16(1);
    var f := c + Le32(e.size);
    var g := f + Le16(if e.thumbSize != 0 then 0x3804 else 0);
    var h := g + Le32(e.thumbSize);
    var i := h + Le32(e.thumbWidth);
    var j := i + Le32(e.thumbHeight);
    var k := j + Le32(e.width);
    var l := k + Le32(e.height);
    var m := l + Le32(0);
    var n := m + Le32(e.parent);
    var o := n + Le16(if e.format == FOLDER_FORMAT then 1 else 0);
    var p := o + Le32(0);
    Boxes.AtParts(d, 0, p, Le32(0));
    Boxes.AtParts(d, 0, o, Le32(0));
    Boxes.AtParts(d, 0, n, Le16(if e.format == FOLDER_FORMAT then 1 else 0));
    Boxes.AtParts(d, 0, m, Le32(e.parent));
    Boxes.AtParts(d, 0, l, Le32(0));
    Boxes.AtParts(d, 0, k, Le32(e.height));
    Boxes.AtParts(d, 0, j, Le32(e.width));
    Boxes.AtParts(d, 0, i, Le32(e.thumbHeight));
    Boxes.AtParts(d, 0, h, Le32(e.thumbWidth));
    Boxes.AtParts(d, 0, g, Le32(e.thumbSize));
    Boxes.AtParts(d, 0, f, Le16(if e.thumbSize != 0 then 0x3804 else 0));
    Boxes.AtParts(d, 0, c, Le32(e.size));
    Boxes.AtParts(d, 0, b, Le16(1));
    Boxes.AtParts(d, 0, a, Le16(e.format));
  }

  lemma {:induction false} WordReads(n: Word, d: Text, at: nat)
    requires Boxes.At(d, at, Le32(n))
    ensures at + 4 <= |d| && ReadLe32(d, at) == n
  {
    hide Le32, ReadLe32;
    Le32Reads(n, d, at);
  }

  /** The fixed fields an entry is announced with. */
  function HeadOf(e: Entry): Info {
    Info(0x0001_0001, e.format, 1, e.size,
         if e.thumbSize != 0 then 0x3804 else 0, e.thumbSize, e.thumbWidth, e.thumbHeight,
         e.width, e.height, 0, e.parent, if e.format == 0x3001 then 1 else 0, 0, 0)
  }

  lemma {:induction false} HeadReads(d: Text, e: Entry)
    requires e.size < U32 && Boxes.At(d, 0, InfoHead(e))
    ensures |d| >= 52 && ReadHead(d) == HeadOf(e)
  {
    HeadFields(d, e);
    hide Le16, Le32, ReadLe16, ReadLe32, InfoHead, Boxes.At;
    WordReads(STORAGE_ID, d, 0);
    Le16Reads(e.format, d, 4);
    Le16Reads(1, d, 6);
    WordReads(e.size, d, 8);
    Le16Reads(if e.thumbSize != 0 then 0x3804 else 0, d, 12);
    WordReads(e.thumbSize, d, 14);
    WordReads(e.thumbWidth, d, 18);
    WordReads(e.thumbHeight, d, 22);
    WordReads(e.width, d, 26);
    WordReads(e.height, d, 30);
    WordReads(0, d, 34);
    WordReads(e.parent, d, 38);
    Le16Reads(if e.format == FOLDER_FORMAT then 1 else 0, d, 42);
    WordReads(0, d, 44);
    WordReads(0, d, 48);
  }

  lemma {:induction false} NamesRead(d: Text, at: nat, a: Text, b: Text, c: Text)
    requires Boxes.At(d, at, Encoded(a) + Encoded(b) + Encoded(c) + Encoded([]))
    ensures ReadNames(d, at) == Some(Names(CodePoints(a, MAX_UNITS), CodePoints(b, MAX_UNITS), CodePoints(c, MAX_UNITS), [],
                                           at + |Encoded(a) + Encoded(b) + Encoded(c) + Encoded([])|))
  {
    hide Encoded, ReadString, CodePoints, Boxes.At;
    Boxes.AtParts(d, at, Encoded(a) + Encoded(b) + Encoded(c), Encoded([]));
    Boxes.AtParts(d, at, Encoded(a) + Encoded(b), Encoded(c));
    Boxes.AtParts(d, at, Encoded(a), Encoded(b));
    StringReads(a, d, at);
    StringReads(b, d, at + |Encoded(a)|);
    StringReads(c, d, at + |Encoded(a) + Encoded(b)|);
    StringReads([], d, at + |Encoded(a) + Encoded(b) + Encoded(c)|);
    NoCodePoints();
  }

  /**
    A host that reads an ObjectInfo at the offsets of the standard finds the entry's fields, and behind them
    its display name, its dates and no keywords, with nothing left over.
   */
  lemma {:induction false} InfoReads(e: Entry)
    requires e.size < U32
    ensures |ObjectInfo(e)| >= 52 && ReadHead(ObjectInfo(e)) == HeadOf(e)
    ensures ReadNames(ObjectInfo(e), 52)
         == Some(Names(Shown(e.displayName), Shown(e.created), Shown(e.modified), [], |ObjectInfo(e)|))
  {
    hide InfoHead, Encoded, CString, ReadHead, ReadNames, CodePoints;
    var a, b, c := CString(e.displayName), CString(e.created), CString(e.modified);
    var head, names := InfoHead(e), Encoded(a) + Encoded(b) + Encoded(c) + Encoded([]);
    assert ObjectInfo(e) == head + names;
    assert Boxes.At(head + names, 0, head);
    assert Boxes.At(head + names, 52, names);
    HeadReads(head + names, e);
    NamesRead(head + names, 52, a, b, c);
  }

  // ---- StorageInfo ----

  datatype Store = Store(storageType: nat, fileSystem: nat, access: nat, capacity: nat, free: nat, objects: nat)

  function ReadStore(d: Text): Store
    requires |d| >= 26
  {
    Store(ReadLe16(d, 0), ReadLe16(d, 2), ReadLe16(d, 4), ReadLe64(d, 6), ReadLe64(d, 14), ReadLe32(d, 22))
  }

  lemma {:induction false} StoreFields(d: Text, capacity: Quad, free: Quad)
    requires Boxes.At(d, 0, StorageInfo(capacity, free))
    ensures Boxes.At(d, 0, Le16(3)) && Boxes.At(d, 2, Le16(2)) && Boxes.At(d, 4, Le16(1))
    ensures Boxes.At(d, 6, Le64(capacity)) && Boxes.At(d, 14, Le64(free)) && Boxes.At(d, 22, Le32(0xffff_ffff))
    ensures Boxes.At(d, 26, Encoded(StorageLabel()))
    ensures Boxes.At(d, 26 + |Encoded(StorageLabel())|, Encoded(VolumeLabel()))
    ensures |StorageInfo(capacity, free)| == 26 + |Encoded(StorageLabel())| + |Encoded(VolumeLabel())|
  {
    hide Le16, Le32, Le64, Encoded, StorageLabel, VolumeLabel, Boxes.At;
    var a := Le16(3);
    var b := a + Le16(2);
    var c := b + Le16(1);
    var f := c + Le64(capacity);
    var g := f + Le64(free);
    var h := g + Le32(0xffff_ffff);
    var i := h + Encoded(StorageLabel());
    Boxes.AtParts(d, 0, i, Encoded(VolumeLabel()));
    Boxes.AtParts(d, 0, h, Encoded(StorageLabel()));
    Boxes.AtParts(d, 0, g, Le32(0xffff_ffff));
    Boxes.AtParts(d, 0, f, Le64(free));
    Boxes.AtParts(d, 0, c, Le64(capacity));
    Boxes.AtParts(d, 0, b, Le16(1));
    Boxes.AtParts(d, 0, a, Le16(2));
  }

  /** A host reads a fixed, generic-hierarchical, read-only store with its capacity, its free bytes and its two labels. */
  lemma {:induction false} StorageReads(capacity: Quad, free: Quad)
    ensures var d := StorageInfo(capacity, free);
            && |d| >= 26 && ReadStore(d) == Store(3, 2, 1, capacity, free, 0xffff_ffff)
            && ReadString(d, 26).Some?
            && ReadString(d, 26).value.text == CodePoints(StorageLabel(), MAX_UNITS)
            && ReadString(d, ReadString(d, 26).value.next) == Some(Field(CodePoints(VolumeLabel(), MAX_UNITS), |d|))
  {
    var d := StorageInfo(capacity, free);
    hide StorageInfo, Le16, Le32, Le64, Encoded, ReadString, ReadStore, CodePoints, StorageLabel, VolumeLabel;
    assert Boxes.At(d, 0, d);
    StoreFields(d, capacity, free);
    StoreReads(d, capacity, free);
    StringReads(StorageLabel(), d, 26);
    StringReads(VolumeLabel(), d, 26 + |Encoded(StorageLabel())|);
  }

  lemma {:induction false} StoreReads(d: Text, capacity: Quad, free: Quad)
    requires Boxes.At(d, 0, Le16(3)) && Boxes.At(d, 2, Le16(2)) && Boxes.At(d, 4, Le16(1))
    requires Boxes.At(d, 6, Le64(capacity)) && Boxes.At(d, 14, Le64(free)) && Boxes.At(d, 22, Le32(0xffff_ffff))
    ensures |d| >= 26 && ReadStore(d) == Store(3, 2, 1, capacity, free, 0xffff_ffff)
  {
    hide Le16, Le32, Le64, ReadLe16, ReadLe32, ReadLe64, Boxes.At;
    Le16Reads(3, d, 0);
    Le16Reads(2, d, 2);
    Le16Reads(1, d, 4);
    Le64Reads(capacity, d, 6);
    Le64Reads(free, d, 14);
    WordReads(0xffff_ffff, d, 22);
  }

  // ---- arrays and property descriptions ----

  /** A counted array of 16-bit numbers, and the offset behind it. */
  function ReadArray(d: Text, at: nat): Option<(seq<nat>, nat)> {
    if at + 4 > |d| then None
    else
      var count := ReadLe32(d, at);
      if at + 4 + 2 * count > |d| then None else Some((ReadUnits(d, at + 4, count), at + 4 + 2 * count))
  }

  lemma {:induction false} ShortsAreUnits(values: seq<Short>)
    ensures Shorts(values) == UnitBytes(values)
  {
    if values != [] {
      ShortsAreUnits(values[..|values| - 1]);
    }
  }

  lemma {:induction false} ArrayReads(values: seq<Short>, d: Text, at: nat)
    requires |values| < U32 && Boxes.At(d, at, Array16(values))
    ensures ReadArray(d, at) == Some((values, at + |Array16(values)|))
  {
    hide Le32, Shorts, ReadUnits;
    Boxes.AtParts(d, at, Le32(|values|), Shorts(values));
    WordReads(|values|, d, at);
    ShortsAreUnits(values);
    UnitsRead(values, d, at + 4);
  }

  lemma {:induction false} DeviceFields(d: Text)
    requires Boxes.At(d, 0, DeviceInfo())
    ensures Boxes.At(d, 0, Le16(100)) && Boxes.At(d, 2, Le32(6)) && Boxes.At(d, 6, Le16(100))
    ensures Boxes.At(d, 8, Encoded(VendorExtension()))
    ensures var n := 10 + |Encoded(VendorExtension())|;
            Boxes.At(d, n, Array16(OPERATIONS)) && Boxes.At(d, n + |Array16(OPERATIONS)| + 12, Array16(FORMATS))
  {
    hide Le16, Le32, Encoded, Array16, VendorExtension, Manufacturer, ModelName, DeviceVersion, SerialNumber, Boxes.At;
    var a := Le16(100);
    var b := a + Le32(6);
    var c := b + Le16(100);
    var e := c + Encoded(VendorExtension());
    var f := e + Le16(0);
    var g := f + Array16(OPERATIONS);
    var h := g + Le32(0);
    var i := h + Le32(0);
    var j := i + Le32(0);
    var k := j + Array16(FORMATS);
    var l := k + Encoded(Manufacturer());
    var m := l + Encoded(ModelName());
    var n := m + Encoded(DeviceVersion());
    Boxes.AtParts(d, 0, n, Encoded(SerialNumber()));
    Boxes.AtParts(d, 0, m, Encoded(DeviceVersion()));
    Boxes.AtParts(d, 0, l, Encoded(ModelName()));
    Boxes.AtParts(d, 0, k, Encoded(Manufacturer()));
    Boxes.AtParts(d, 0, j, Array16(FORMATS));
    Boxes.AtParts(d, 0, i, Le32(0));
    Boxes.AtParts(d, 0, h, Le32(0));
    Boxes.AtParts(d, 0, g, Le32(0));
    Boxes.AtParts(d, 0, f, Array16(OPERATIONS));
    Boxes.AtParts(d, 0, e, Le16(0));
    Boxes.AtParts(d, 0, c, Encoded(VendorExtension()));
    Boxes.AtParts(d, 0, b, Le16(100));
    Boxes.AtParts(d, 0, a, Le32(6));
  }

  /** What a host reads as DeviceInfo: version 1.00 of the standard with the MTP extension, then operations and formats. */
  predicate DeviceRead(d: Text, operations: seq<nat>, formats: seq<nat>) {
    && |d| >= 8 && ReadLe16(d, 0) == 100 && ReadLe32(d, 2) == 6 && ReadLe16(d, 6) == 100
    && match ReadString(d, 8)
       case None => false
       case Some(extension) =>
         match ReadArray(d, extension.next + 2)
         case None => false
         case Some(codes) => codes.0 == operations && ReadArray(d, codes.1 + 12).Some? && ReadArray(d, codes.1 + 12).value.0 == formats
  }

  /** A host reads exactly the operations and formats of the device. */
  lemma {:induction false} DeviceReads()
    ensures DeviceRead(DeviceInfo(), OPERATIONS, FORMATS)
  {
    hide DeviceInfo, Le16, Le32, Encoded, Array16, ReadLe16, ReadLe32, ReadString, ReadArray, CodePoints, VendorExtension;
    var d := DeviceInfo();
    assert Boxes.At(d, 0, d);
    DeviceFields(d);
    Le16Reads(100, d, 0);
    WordReads(6, d, 2);
    Le16Reads(100, d, 6);
    StringReads(VendorExtension(), d, 8);
    var n := 10 + |Encoded(VendorExtension())|;
    ArrayReads(OPERATIONS, d, n);
    ArrayReads(FORMATS, d, n + |Array16(OPERATIONS)| + 12);
  }

  /** A host that asks for the properties of a format reads exactly the supported ones. */
  lemma {:induction false} SupportedReads(format: Short, code: Short)
    ensures ReadArray(Array16(PropList(format)), 0).Some?
    ensures code in ReadArray(Array16(PropList(format)), 0).value.0 <==> Supported(code, format)
  {
    hide Array16, PropList, ReadArray;
    assert Boxes.At(Array16(PropList(format)), 0, Array16(PropList(format)));
    ArrayReads(PropList(format), Array16(PropList(format)), 0);
    PropListIsComplete(code, format);
  }

  /** A property description names its property and type, and is read-only: its fifth byte is 0. */
  lemma {:induction false} DescriptionReads(code: Short)
    ensures var d := PropDesc(code);
            |d| >= 10 && ReadLe16(d, 0) == code && ReadLe16(d, 2) == PropType(code) && d[4] == 0
  {
    hide Le16, Le32, DefaultValue, PropType, ReadLe16;
    var d := PropDesc(code);
    var rest := [0] + DefaultValue(code) + Le32(0) + [0];
    assert d == Le16(code) + Le16(PropType(code)) + rest;
    assert Boxes.At(d, 0, Le16(code)) && Boxes.At(d, 2, Le16(PropType(code)));
    Le16Reads(code, d, 0);
    Le16Reads(PropType(code), d, 2);
    assert |DefaultValue(code)| >= 0;
  }

  // ---- property values ----

  datatype Value = Number(n: nat) | String(text: seq<Scalar>) | Persistent(id: nat, kind: nat, mark: nat)

  /** A value read by the type its description announces; None if bytes are missing or left over. */
  function ReadValue(d: Text, t: Short): Option<Value> {
    match t
    case 0x0002 => if |d| == 1 then Some(Number(d[0])) else None
    case 0x0004 => if |d| == 2 then Some(Number(ReadLe16(d, 0))) else None
    case 0x0006 => if |d| == 4 then Some(Number(ReadLe32(d, 0))) else None
    case 0x0008 => if |d| == 8 then Some(Number(ReadLe64(d, 0))) else None
    case 0x000a => if |d| == 16 then Some(Persistent(ReadLe64(d, 0), ReadLe32(d, 8), ReadLe32(d, 12))) else None
    case _ => match ReadString(d, 0)
      case None => None
      case Some(f) => if f.next == |d| then Some(String(f.text)) else None
  }

  /** The entry's field behind each property code. */
  function FieldOf(e: Entry, code: Short): Value {
    match code
    case 0xdc01 => Number(0x0001_0001)
    case 0xdc02 => Number(e.format)
    case 0xdc03 => Number(1)
    case 0xdc04 => Number(e.size)
    case 0xdc07 => String(Shown(e.displayName))
    case 0xdc08 => String(Shown(e.created))
    case 0xdc09 => String(Shown(e.modified))
    case 0xdc0b => Number(e.parent)
    case 0xdc41 => Persistent(if e.kind == 4 then e.handle else e.nativeId, e.kind, 0x5643_4d32)
    case 0xdc44 => String(Shown(if CString(e.title) != [] then e.title else e.displayName))
    case 0xdc4f => Number(0)
    case 0xdc46 => String(Shown(e.artist))
    case 0xdc9a => String(Shown(e.album))
    case 0xdc87 => Number(e.width)
    case _ => Number(e.height)
  }

  lemma {:induction false} TextValueReads(s: Text)
    ensures ReadValue(Encoded(s), 0xffff) == Some(String(CodePoints(s, MAX_UNITS)))
  {
    hide Encoded, CodePoints, ReadString;
    assert Boxes.At(Encoded(s), 0, Encoded(s));
    StringReads(s, Encoded(s), 0);
  }

  lemma {:induction false} NumberReads(w: Word, q: Quad)
    ensures ReadValue(Le32(w), 0x0006) == Some(Number(w)) && ReadValue(Le64(q), 0x0008) == Some(Number(q))
    ensures w < U16 ==> ReadValue(Le16(w), 0x0004) == Some(Number(w))
  {
    assert Boxes.At(Le32(w), 0, Le32(w)) && Boxes.At(Le64(q), 0, Le64(q));
    hide Le16, Le32, Le64, ReadLe16, ReadLe32, ReadLe64;
    WordReads(w, Le32(w), 0);
    Le64Reads(q, Le64(q), 0);
    if w < U16 {
      assert Boxes.At(Le16(w), 0, Le16(w));
      Le16Reads(w, Le16(w), 0);
    }
  }

  lemma {:induction false} PersistentReads(id: Quad, kind: Word, mark: Word)
    ensures ReadValue(Le64(id) + Le32(kind) + Le32(mark), 0x000a) == Some(Persistent(id, kind, mark))
  {
    var d := Le64(id) + Le32(kind) + Le32(mark);
    hide Le32, Le64, ReadLe32, ReadLe64;
    assert Boxes.At(d, 0, Le64(id) + Le32(kind) + Le32(mark));
    Boxes.AtParts(d, 0, Le64(id) + Le32(kind), Le32(mark));
    Boxes.AtParts(d, 0, Le64(id), Le32(kind));
    Le64Reads(id, d, 0);
    WordReads(kind, d, 8);
    WordReads(mark, d, 12);
  }

  /** Read by the announced type, the value of a supported property is the entry's field for that code. */
  lemma {:induction false} PropertyReads(e: Entry, code: Short)
    requires Supported(code, e.format)
    ensures ReadValue(PropValue(e, code), PropType(code)) == Some(FieldOf(e, code))
  {
    hide Encoded, CString, CodePoints, ReadString, Le16, Le32, Le64, ReadLe16, ReadLe32, ReadLe64, ReadValue;
    if PropType(code) == 0xffff {
      TextPropertyReads(e, code);
    } else if code == 0xdc41 {
      PersistentReads(if e.kind == FOLDER then e.handle else e.nativeId, e.kind, 0x56434d32);
    } else if code == 0xdc4f {
      FlagReads();
    } else {
      NumberReads(STORAGE_ID, e.size);
      NumberReads(e.format, e.size);
      NumberReads(1, e.size);
      NumberReads(e.parent, e.size);
      NumberReads(e.width, e.size);
      NumberReads(e.height, e.size);
    }
  }

  lemma {:induction false} FlagReads()
    ensures ReadValue([0], 0x0002) == Some(Number(0))
  {
  }

  lemma {:induction false} TextPropertyReads(e: Entry, code: Short)
    requires Supported(code, e.format) && PropType(code) == 0xffff
    ensures ReadValue(PropValue(e, code), 0xffff) == Some(FieldOf(e, code))
  {
    hide Encoded, CString, CodePoints, ReadString, ReadValue;
    TextValueReads(CString(e.displayName));
    TextValueReads(CString(e.created));
    TextValueReads(CString(e.modified));
    TextValueReads(CString(e.title));
    TextValueReads(CString(e.artist));
    TextValueReads(CString(e.album));
  }

  // ---- listings agree with the data sets ----

  /** A handle is listed exactly if it leads to an entry that the listing asks for. */
  lemma {:induction false} MatchingExactly(entries: seq<Entry>, parent: Word, format: Short, h: Word)
    requires Numbered(entries)
    ensures h in Matching(entries, parent, format)
       <==> Get(entries, h).Some? && Listed(Get(entries, h).value, parent, format)
  {
    hide Listed;
    if entries != [] {
      MatchingExactly(entries[..|entries| - 1], parent, format, h);
    }
  }

  /** The parent an ObjectInfo names for what is listed under `parent`. */
  function NamedParent(parent: Word): Word { if parent == ROOT_HANDLE then 0 else parent }

  /** The answer is an ObjectInfo with this parent, and with this format unless that is 0. */
  predicate Tells(a: Outcome, parent: Word, format: Short) {
    && a.reply.Some? && a.reply.value.phase.Memory? && |a.payload| >= 52
    && ReadHead(a.payload).parent == parent && (format == 0 || ReadHead(a.payload).format == format)
  }

  /**
    The objects listed under the root or a folder are exactly those whose ObjectInfo names that parent, and a
    listing by format yields exactly those whose ObjectInfo also names that format.
   */
  lemma {:induction false} ListingAgreesWithInfo(session: Word, entries: Catalog, space: Space, c: Record, room: nat,
                                                 parent: Word, format: Short)
    requires session != 0 && Numbered(entries) && Sendable(entries) && room >= 4096 && 1 <= c.paramCount <= 5
    requires ListableParent(entries, parent) && parent != ALL_HANDLES && c.code == 0x1008
    ensures var a := Answer(session, entries, space, c, room);
            c.p0 in Children(entries, parent, format) <==> Tells(a, NamedParent(parent), format)
  {
    MatchingExactly(entries, parent, format, c.p0);
    hide Matching, ListableParent, Numbered;
    if Get(entries, c.p0).Some? {
      FoundTells(session, entries, space, c, room, NamedParent(parent), format);
    } else {
      hide AnswerStorage, AnswerProperty, AnswerListing, DeviceInfo, ObjectInfo, ReadHead;
    }
  }

  lemma {:induction false} FoundTells(session: Word, entries: Catalog, space: Space, c: Record, room: nat,
                                      parent: Word, format: Short)
    requires session != 0 && Sendable(entries) && room >= 4096 && 1 <= c.paramCount <= 5 && c.code == 0x1008
    requires Get(entries, c.p0).Some?
    ensures Tells(Answer(session, entries, space, c, room), parent, format)
       <==> Get(entries, c.p0).value.parent == parent && (format == 0 || Get(entries, c.p0).value.format == format)
  {
    hide ObjectInfo, ReadHead, Answer, ReadNames;
    ObjectAnswers(session, entries, space, c, room);
    InfoReads(Get(entries, c.p0).value);
    assert c.(code := 0x1008) == c;
  }
}
