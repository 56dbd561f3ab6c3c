/**
  The data sets of src/vita/mtp_wire.c, little-endian (Appendix D.2 of the Media Transfer Protocol
  1.1). Each is a value, and each writing method puts exactly that value into the buffer if it fits.
 */
module MtpWire {
  import opened Bytes
  import opened MtpCatalog
  import opened MtpString

  const STORAGE_ID: Word := 0x0001_0001

  /** A string literal of printable characters. */
  function Ascii(s: string): (t: Text)
    requires forall i :: 0 <= i < |s| ==> ' ' <= s[i] <= '~'
    ensures |t| == |s| && 0 !in t
  {
    seq(|s|, i requires 0 <= i < |s| => s[i] as int)
  }

  // ---- numbers ----

  function Le16(n: Short): (s: Text) ensures |s| == 2 { [n % 256, n / 256] }

  function Le32(n: Word): (s: Text) ensures |s| == 4 { Le16(n % 0x1_0000) + Le16(n / 0x1_0000) }

  function Le64(n: Quad): (s: Text) ensures |s| == 8 { Le32(n % 0x1_0000_0000) + Le32(n / 0x1_0000_0000) }

  function Array16(values: seq<Short>): (s: Text)
    ensures |s| == 4 + 2 * |values|
    requires |values| < U32
  {
    Le32(|values|) + Shorts(values)
  }

  function Shorts(values: seq<Short>): (s: Text)
    ensures |s| == 2 * |values|
  {
    if values == [] then [] else Shorts(values[..|values| - 1]) + Le16(values[|values| - 1])
  }

  function Words(values: seq<Word>): (s: Text)
    ensures |s| == 4 * |values|
  {
    if values == [] then [] else Words(values[..|values| - 1]) + Le32(values[|values| - 1])
  }

  // ---- the fixed texts ----

  function VendorExtension(): (t: Text) ensures 0 !in t { Ascii("microsoft.com: 1.0; ") }

  function Manufacturer(): (t: Text) ensures 0 !in t { Ascii("Content Manager Pro") }

  function ModelName(): (t: Text) ensures 0 !in t { Ascii("Virtual Media Library") }

  function DeviceVersion(): (t: Text) ensures 0 !in t { Ascii("1.0") }

  function SerialNumber(): (t: Text) ensures 0 !in t { Ascii("VCM") }

  function StorageLabel(): (t: Text) ensures 0 !in t { Ascii("Media on PS Vita") }

  function VolumeLabel(): (t: Text) ensures 0 !in t { Ascii("Photo, Music and Video") }

  // ---- data sets ----

  const OPERATIONS: seq<Short> := [
    0x1001, 0x1002, 0x1003, 0x1004, 0x1005, 0x1006, 0x1007, 0x1008, 0x1009, 0x100a,
    0x9801, 0x9802, 0x9803, 0x9ff0, 0x9ff1, 0x9ff2, 0x9ff3, 0x9ff4, 0x9ff5]

  const FORMATS: seq<Short> := [
    0x3001, 0x3801, 0x3804, 0x3807, 0x380b, 0x380d, 0xb301, 0x3008, 0x3009, 0xb215, 0xb903, 0xb982, 0xba82]

  function DeviceInfo(): (s: Text)
    ensures 0 < |s| <= 4096
  {
    Le16(100) + Le32(6) + Le16(100) + Encoded(VendorExtension()) + Le16(0)
      + Array16(OPERATIONS) + Le32(0) + Le32(0) + Le32(0) + Array16(FORMATS)
      + Encoded(Manufacturer()) + Encoded(ModelName())
      + Encoded(DeviceVersion()) + Encoded(SerialNumber())
  }

  function StorageInfo(capacity: Quad, free: Quad): (s: Text)
    ensures 0 < |s| <= 4096
  {
    Le16(3) + Le16(2) + Le16(1) + Le64(capacity) + Le64(free) + Le32(0xffff_ffff)
      + Encoded(StorageLabel()) + Encoded(VolumeLabel())
  }

  /** The fixed part of 52 bytes, then name, dates and empty keywords. */
  function ObjectInfo(e: Entry): (s: Text)
    requires e.size < U32
    ensures 52 < |s| <= 4096
  {
    InfoHead(e) + Encoded(CString(e.displayName)) + Encoded(CString(e.created)) + Encoded(CString(e.modified))
      + Encoded([])
  }

  function InfoHead(e: Entry): (s: Text)
    requires e.size < U32
    ensures |s| == 52
  {
    Le32(STORAGE_ID) + Le16(e.format) + Le16(1) + Le32(e.size)
      + Le16(if e.thumbSize != 0 then 0x3804 else 0) + Le32(e.thumbSize) + Le32(e.thumbWidth) + Le32(e.thumbHeight)
      + Le32(e.width) + Le32(e.height) + Le32(0)
      + Le32(e.parent) + Le16(if e.format == FOLDER_FORMAT then 1 else 0) + Le32(0) + Le32(0)
  }

  const COMMON_PROPS: seq<Short> := [
    0xdc01, 0xdc02, 0xdc03, 0xdc04, 0xdc07, 0xdc08, 0xdc09, 0xdc0b, 0xdc41, 0xdc44, 0xdc4f]

  predicate Supported(code: Short, format: Short) {
    || code in COMMON_PROPS
    || (code in {0xdc46, 0xdc9a} && format in {0x3008, 0x3009, 0xb903})
    || (code in {0xdc87, 0xdc88} && format in {0x3801, 0x3804, 0x3807, 0x380b, 0x380d, 0xb301, 0xb982})
  }

  function PropType(code: Short): Short {
    if code == 0xdc4f then 0x0002
    else if code in {0xdc01, 0xdc0b, 0xdc87, 0xdc88} then 0x0006
    else if code in {0xdc02, 0xdc03} then 0x0004
    else if code == 0xdc04 then 0x0008
    else if code == 0xdc41 then 0x000a
    else 0xffff
  }

  function PropList(format: Short): (r: seq<Short>)
    ensures |r| <= 13
  {
    COMMON_PROPS + if Supported(0xdc46, format) then [0xdc46, 0xdc9a]
                   else if Supported(0xdc87, format) then [0xdc87, 0xdc88] else []
  }

  /** The listed properties are exactly the supported ones. */
  lemma {:induction false} PropListIsComplete(code: Short, format: Short)
    ensures code in PropList(format) <==> Supported(code, format)
  {
    var extra := if Supported(0xdc46, format) then [0xdc46, 0xdc9a]
                 else if Supported(0xdc87, format) then [0xdc87, 0xdc88] else [];
    assert PropList(format) == COMMON_PROPS + extra;
    assert code in PropList(format) <==> code in COMMON_PROPS || code in extra;
  }

  function DefaultValue(code: Short): (s: Text)
    ensures |s| <= 16
  {
    match PropType(code)
    case 0x0002 => [0]
    case 0x0004 => Le16(0)
    case 0x0006 => Le32(0)
    case 0x0008 => Le64(0)
    case 0x000a => Le64(0) + Le64(0)
    case _ => [0]
  }

  function PropDesc(code: Short): (s: Text)
    ensures 0 < |s| <= 4096
  {
    Le16(code) + Le16(PropType(code)) + [0] + DefaultValue(code) + Le32(0) + [0]
  }

  function PropValue(e: Entry, code: Short): (s: Text)
    ensures 0 < |s| <= 4096
  {
    match code
    case 0xdc01 => Le32(STORAGE_ID)
    case 0xdc02 => Le16(e.format)
    case 0xdc03 => Le16(1)
    case 0xdc04 => Le64(e.size)
    case 0xdc07 => Encoded(CString(e.displayName))
    case 0xdc08 => Encoded(CString(e.created))
    case 0xdc09 => Encoded(CString(e.modified))
    case 0xdc0b => Le32(e.parent)
    case 0xdc41 => Le64(if e.kind == FOLDER then e.handle else e.nativeId) + Le32(e.kind) + Le32(0x56434d32)
    case 0xdc44 => Encoded(CString(if CString(e.title) != [] then e.title else e.displayName))
    case 0xdc4f => [0]
    case 0xdc46 => Encoded(CString(e.artist))
    case 0xdc9a => Encoded(CString(e.album))
    case 0xdc87 => Le32(e.width)
    case _ => Le32(e.height)
  }

  // ---- the default value has the announced type, and so has the value ----

  /** The width of a fixed-size type code; strings have none. */
  function TypeWidth(t: Short): Option<nat> {
    match t
    case 0x0002 => Some(1) case 0x0004 => Some(2) case 0x0006 => Some(4) case 0x0008 => Some(8) case 0x000a => Some(16)
    case _ => None
  }

  lemma {:induction false} ValueHasTheDescribedType(e: Entry, code: Short)
    requires Supported(code, e.format)
    ensures TypeWidth(PropType(code)).Some? ==>
              |PropValue(e, code)| == |DefaultValue(code)| == TypeWidth(PropType(code)).value
    ensures TypeWidth(PropType(code)).None? ==> exists s :: PropValue(e, code) == Encoded(s)
  {
    hide Encoded, CString;
    var text := match code
      case 0xdc07 => CString(e.displayName)
      case 0xdc08 => CString(e.created)
      case 0xdc09 => CString(e.modified)
      case 0xdc44 => CString(if CString(e.title) != [] then e.title else e.displayName)
      case 0xdc46 => CString(e.artist)
      case _ => CString(e.album);
    assert TypeWidth(PropType(code)).None? ==> PropValue(e, code) == Encoded(text);
  }

  // ---- writing them ----

  method WriteArray16(w: Writer, values: seq<Short>, ghost log: Text)
    requires w.Carries(log) && |values| < U32
    modifies w, w.data
    ensures w.Carries(log + Array16(values))
  {
    hide Le16, Le32;
    w.Append(Le32(|values|), log);
    ghost var start := log + Le32(|values|);
    assert start + Shorts(values[..0]) == start;
    for i := 0 to |values|
      invariant w.Carries(start + Shorts(values[..i]))
    {
      w.Append(Le16(values[i]), start + Shorts(values[..i]));
      assert values[..i + 1][..i] == values[..i];
      assert start + Shorts(values[..i]) + Le16(values[i]) == start + Shorts(values[..i + 1]);
    }
    assert values[..|values|] == values;
    assert start + Shorts(values) == log + Array16(values);
  }

  method WriteDeviceInfo(w: Writer) returns (ok: bool)
    requires w.Carries([])
    modifies w, w.data
    ensures ok == (|DeviceInfo()| <= w.capacity) && w.Carries(DeviceInfo())
  {
    hide Encoded, Le16, Le32, Array16,
         VendorExtension, Manufacturer, ModelName, DeviceVersion, SerialNumber;
    ghost var l := Le16(100) + Le32(6) + Le16(100);
    w.Append(Le16(100), []);
    w.Append(Le32(6), [] + Le16(100));
    assert [] + Le16(100) == Le16(100);
    w.Append(Le16(100), Le16(100) + Le32(6));
    w.AppendString(VendorExtension(), l);
    l := l + Encoded(VendorExtension());
    w.Append(Le16(0), l);
    l := l + Le16(0);
    WriteArray16(w, OPERATIONS, l);
    l := l + Array16(OPERATIONS);
    w.Append(Le32(0), l);
    w.Append(Le32(0), l + Le32(0));
    w.Append(Le32(0), l + Le32(0) + Le32(0));
    l := l + Le32(0) + Le32(0) + Le32(0);
    WriteArray16(w, FORMATS, l);
    l := l + Array16(FORMATS);
    w.AppendString(Manufacturer(), l);
    l := l + Encoded(Manufacturer());
    w.AppendString(ModelName(), l);
    l := l + Encoded(ModelName());
    w.AppendString(DeviceVersion(), l);
    l := l + Encoded(DeviceVersion());
    w.AppendString(SerialNumber(), l);
    ok := !w.error;
  }

  method WriteStorageInfo(w: Writer, capacity: Quad, free: Quad) returns (ok: bool)
    requires w.Carries([])
    modifies w, w.data
    ensures ok == (|StorageInfo(capacity, free)| <= w.capacity) && w.Carries(StorageInfo(capacity, free))
  {
    hide Encoded, Le16, Le32, Le64, StorageLabel, VolumeLabel;
    w.Append(Le16(3), []);
    assert [] + Le16(3) == Le16(3);
    ghost var l := Le16(3);
    w.Append(Le16(2), l);
    l := l + Le16(2);
    w.Append(Le16(1), l);
    l := l + Le16(1);
    w.Append(Le64(capacity), l);
    l := l + Le64(capacity);
    w.Append(Le64(free), l);
    l := l + Le64(free);
    w.Append(Le32(0xffff_ffff), l);
    l := l + Le32(0xffff_ffff);
    w.AppendString(StorageLabel(), l);
    l := l + Encoded(StorageLabel());
    w.AppendString(VolumeLabel(), l);
    ok := !w.error;
  }

  method WriteInfoHead(w: Writer, e: Entry)
    requires w.Carries([]) && e.size < U32
    modifies w, w.data
    ensures w.Carries(InfoHead(e))
  {
    hide Le16, Le32;
    w.Append(Le32(STORAGE_ID), []);
    assert [] + Le32(STORAGE_ID) == Le32(STORAGE_ID);
    ghost var l := Le32(STORAGE_ID);
    w.Append(Le16(e.format), l);
    l := l + Le16(e.format);
    w.Append(Le16(1), l);
    l := l + Le16(1);
    w.Append(Le32(e.size), l);
    l := l + Le32(e.size);
    var thumbFormat: Short := if e.thumbSize != 0 then 0x3804 else 0;
    w.Append(Le16(thumbFormat), l);
    l := l + Le16(thumbFormat);
    w.Append(Le32(e.thumbSize), l);
    l := l + Le32(e.thumbSize);
    w.Append(Le32(e.thumbWidth), l);
    l := l + Le32(e.thumbWidth);
    w.Append(Le32(e.thumbHeight), l);
    l := l + Le32(e.thumbHeight);
    w.Append(Le32(e.width), l);
    l := l + Le32(e.width);
    w.Append(Le32(e.height), l);
    l := l + Le32(e.height);
    w.Append(Le32(0), l);
    l := l + Le32(0);
    w.Append(Le32(e.parent), l);
    l := l + Le32(e.parent);
    var association: Short := if e.format == FOLDER_FORMAT then 1 else 0;
    w.Append(Le16(association), l);
    l := l + Le16(association);
    w.Append(Le32(0), l);
    w.Append(Le32(0), l + Le32(0));
  }

  method WriteObjectInfo(w: Writer, e: Entry) returns (ok: bool)
    requires w.Carries([]) && e.size < U32
    modifies w, w.data
    ensures ok == (|ObjectInfo(e)| <= w.capacity) && w.Carries(ObjectInfo(e))
  {
    hide Encoded, CString, InfoHead;
    WriteInfoHead(w, e);
    ghost var l := InfoHead(e);
    w.AppendString(CString(e.displayName), l);
    l := l + Encoded(CString(e.displayName));
    w.AppendString(CString(e.created), l);
    l := l + Encoded(CString(e.created));
    w.AppendString(CString(e.modified), l);
    l := l + Encoded(CString(e.modified));
    w.AppendString([], l);
    ok := !w.error;
  }

  method WriteStorageIds(w: Writer) returns (ok: bool)
    requires w.Carries([])
    modifies w, w.data
    ensures ok == (8 <= w.capacity) && w.Carries(Le32(1) + Le32(STORAGE_ID))
  {
    hide Le32;
    w.Append(Le32(1), []);
    assert [] + Le32(1) == Le32(1);
    w.Append(Le32(STORAGE_ID), Le32(1));
    ok := !w.error;
  }

  method WritePropList(w: Writer, format: Short) returns (ok: bool)
    requires w.Carries([])
    modifies w, w.data
    ensures ok == (|Array16(PropList(format))| <= w.capacity) && w.Carries(Array16(PropList(format)))
  {
    var props := PropList(format);
    hide PropList, Array16;
    WriteArray16(w, props, []);
    assert [] + Array16(props) == Array16(props);
    ok := !w.error;
  }

  method WritePropDesc(w: Writer, code: Short, format: Short) returns (ok: bool)
    requires w.Carries([])
    modifies w, w.data
    ensures ok == (Supported(code, format) && |PropDesc(code)| <= w.capacity)
    ensures ok ==> w.Carries(PropDesc(code))
  {
    if !Supported(code, format) { return false; }
    hide Supported, Le16, Le32, Le64, DefaultValue;
    var kind := PropType(code);
    w.Append(Le16(code), []);
    assert [] + Le16(code) == Le16(code);
    ghost var l := Le16(code);
    w.Append(Le16(kind), l);
    l := l + Le16(kind);
    w.Append([0], l);
    l := l + [0];
    w.Append(DefaultValue(code), l);
    l := l + DefaultValue(code);
    w.Append(Le32(0), l);
    l := l + Le32(0);
    w.Append([0], l);
    ok := !w.error;
  }

  method WritePropValue(w: Writer, e: Entry, code: Short) returns (ok: bool)
    requires w.Carries([])
    modifies w, w.data
    ensures ok == (Supported(code, e.format) && |PropValue(e, code)| <= w.capacity)
    ensures ok ==> w.Carries(PropValue(e, code))
  {
    if !Supported(code, e.format) { return false; }
    hide Supported, Le16, Le32, Le64, Encoded, CString;
    assert [] + PropValue(e, code) == PropValue(e, code);
    match code {
      case 0xdc07 => w.AppendString(CString(e.displayName), []);
      case 0xdc08 => w.AppendString(CString(e.created), []);
      case 0xdc09 => w.AppendString(CString(e.modified), []);
      case 0xdc44 => w.AppendString(CString(if CString(e.title) != [] then e.title else e.displayName), []);
      case 0xdc46 => w.AppendString(CString(e.artist), []);
      case 0xdc9a => w.AppendString(CString(e.album), []);
      case 0xdc41 =>
        var id := if e.kind == FOLDER then e.handle else e.nativeId;
        w.Append(Le64(id), []);
        assert [] + Le64(id) == Le64(id);
        w.Append(Le32(e.kind), Le64(id));
        w.Append(Le32(0x56434d32), Le64(id) + Le32(e.kind));
      case _ => w.Append(PropValue(e, code), []);
    }
    ok := !w.error;
  }
}
