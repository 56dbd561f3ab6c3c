/**
  The publication text: printed by `queue_payload` in src/desktop/wifi.py, parsed by
  `vcm_queue_publish` in src/vita/sync_queue.c.
 */
module QueueFormat {
  import opened Bytes
  import opened Strings
  import opened Utf8
  import opened TransferQueue
  import TransferRuns

  const TAB: byte := 9
  const NEWLINE: byte := 10
  const PERCENT: byte := 37

  datatype Publication = Publication(id: Text, items: seq<Metadata>, total: nat)

  // ---- the printer ----

  predicate Unreserved(b: byte) {
    65 <= b <= 90 || 97 <= b <= 122 || 48 <= b <= 57 || b == 95 || b == 46 || b == 45 || b == 126
  }

  function HexDigit(n: nat): byte
    requires n < 16
  {
    if n < 10 then 48 + n else 55 + n
  }

  /** `urllib.parse.quote` with no safe characters, on UTF-8 bytes. */
  function Quote(s: Text): Text {
    if s == [] then []
    else (if Unreserved(s[0]) then [s[0]] else [PERCENT, HexDigit(s[0] / 16), HexDigit(s[0] % 16)]) + Quote(s[1..])
  }

  function Fields(m: Metadata): seq<Text> {
    [m.id, m.extension, Decimal(m.size), Decimal(m.subtitleSize), Decimal(m.kind), m.name, m.title, m.artist,
     m.album, m.albumArtist, m.genre, Decimal(m.durationMs), Decimal(m.sampleRate), Decimal(m.channels),
     Decimal(m.track), m.folder]
  }

  function QuoteAll(fields: seq<Text>): (r: seq<Text>)
    ensures |r| == |fields|
    ensures forall i :: 0 <= i < |fields| ==> r[i] == Quote(fields[i])
  {
    seq(|fields|, i requires 0 <= i < |fields| => Quote(fields[i]))
  }

  function Line(m: Metadata): Text {
    Join(QuoteAll(Fields(m)), TAB)
  }

  function Lines(items: seq<Metadata>): Text {
    if items == [] then [] else Line(items[0]) + [NEWLINE] + Lines(items[1..])
  }

  function Payload(id: Text, items: seq<Metadata>): Text {
    id + [NEWLINE] + Lines(items)
  }

  // ---- the parser ----

  function HexValue(b: byte): int {
    if 48 <= b <= 57 then b - 48
    else if 97 <= b <= 102 then b - 97 + 10
    else if 65 <= b <= 70 then b - 65 + 10
    else -1
  }

  predicate LowerHex(b: byte) {
    48 <= b <= 57 || 97 <= b <= 102
  }

  predicate IdValid(s: Text) {
    |s| == 32 && forall i :: 0 <= i < 32 ==> LowerHex(s[i])
  }

  /** A byte a text field may hold. */
  predicate Printable(b: byte) {
    b >= 32 && b != 127
  }

  predicate Clean(s: Text) {
    forall i :: 0 <= i < |s| ==> Printable(s[i])
  }

  /** Percent-decoding into a buffer of `capacity` bytes, one of them for the terminator. */
  function Decode(s: Text, capacity: nat): Option<Text> {
    if s == [] then Some([])
    else
      var escaped := s[0] == PERCENT;
      if escaped && (|s| < 3 || HexValue(s[1]) < 0 || HexValue(s[2]) < 0) then None
      else
        var c := if escaped then HexValue(s[1]) * 16 + HexValue(s[2]) else s[0];
        if !Printable(c) || capacity <= 1 then None
        else
          match Decode(s[if escaped then 3 else 1..], capacity - 1)
          case None => None
          case Some(rest) => Some([c] + rest)
  }

  const DECIMAL_LIMIT: nat := (U64 - 10) / 10

  function DecimalFrom(s: Text, value: nat): Option<nat> {
    if s == [] then Some(value)
    else if !(48 <= s[0] <= 57) || value > DECIMAL_LIMIT then None
    else DecimalFrom(s[1..], value * 10 + (s[0] - 48))
  }

  function ParseDecimal(s: Text): Option<nat> {
    if s == [] then None else DecimalFrom(s, 0)
  }

  const PHOTO_EXTENSIONS: seq<Text> := [
    [106, 112, 103], [106, 112, 101, 103], [112, 110, 103], [103, 105, 102],
    [98, 109, 112], [116, 105, 102], [116, 105, 102, 102], [109, 112, 111]]
  const MUSIC_EXTENSIONS: seq<Text> := [[109, 112, 51], [109, 52, 97], [119, 97, 118]]
  const MP4: Text := [109, 112, 52]

  /** What the numbers and the extension must satisfy. */
  predicate Ranged(m: Metadata) {
    && 0 < m.size <= MAX_MEDIA && m.subtitleSize <= MAX_SUBTITLE && m.kind <= 2
    && m.durationMs <= 360000000 && m.sampleRate <= 96000 && m.channels <= 2 && m.track <= 99999
    && (m.kind == 0 ==> m.extension in PHOTO_EXTENSIONS)
    && (m.kind == 1 ==> m.extension in MUSIC_EXTENSIONS && m.durationMs > 0 && m.sampleRate > 0 && m.channels > 0)
    && (m.kind == 2 ==> m.extension == MP4)
    && (m.subtitleSize > 0 ==> m.kind == 2)
  }

  predicate TextsFit(m: Metadata) {
    && Fits(m.name, 255) && Fits(m.title, 255) && Fits(m.artist, 255) && Fits(m.album, 255)
    && Fits(m.albumArtist, 255) && Fits(m.genre, 127) && Fits(m.folder, 255)
  }

  /** Everything the parser demands of one item beyond its syntax. */
  predicate Valid(m: Metadata) {
    IdValid(m.id) && Ranged(m) && m.name != [] && TextsFit(m)
  }

  predicate Fits(s: Text, limit: nat) {
    Clean(s) && |s| <= limit
  }

  function Texts(f: seq<Text>): Option<Metadata>
    requires |f| == 16
  {
    match (Decode(f[1], 8), Decode(f[5], 256), Decode(f[6], 256), Decode(f[7], 256))
    case (Some(extension), Some(name), Some(title), Some(artist)) => (
      match (Decode(f[8], 256), Decode(f[9], 256), Decode(f[10], 128), Decode(f[15], 256))
      case (Some(album), Some(albumArtist), Some(genre), Some(folder)) =>
        Some(Metadata(f[0], extension, 0, 0, 0, name, title, artist, album, albumArtist, genre, 0, 0, 0, 0, folder))
      case _ => None)
    case _ => None
  }

  function Numbers(f: seq<Text>, m: Metadata): Option<Metadata>
    requires |f| == 16
  {
    match (ParseDecimal(f[2]), ParseDecimal(f[3]), ParseDecimal(f[4]))
    case (Some(size), Some(subtitleSize), Some(kind)) => (
      match (ParseDecimal(f[11]), ParseDecimal(f[12]), ParseDecimal(f[13]), ParseDecimal(f[14]))
      case (Some(duration), Some(rate), Some(channels), Some(track)) =>
        Some(m.(size := size, subtitleSize := subtitleSize, kind := kind, durationMs := duration,
                sampleRate := rate, channels := channels, track := track))
      case _ => None)
    case _ => None
  }

  /** One line: 15 fields, or 16 with the folder. */
  function ParseFields(fields: seq<Text>): Option<Metadata> {
    if |fields| != 15 && |fields| != 16 then None
    else
      var f := if |fields| == 15 then fields + [[]] else fields;
      match Texts(f)
      case None => None
      case Some(texts) =>
        match Numbers(f, texts)
        case None => None
        case Some(m) => if Valid(m) then Some(m) else None
  }

  predicate IdUsed(items: seq<Metadata>, id: Text) {
    exists i :: 0 <= i < |items| && items[i].id == id
  }

  function ParseLines(lines: seq<Text>, parsed: seq<Metadata>): Option<seq<Metadata>> {
    if lines == [] then Some(parsed)
    else if |parsed| == QUEUE_MAX then None
    else
      match ParseFields(Split(lines[0], TAB))
      case None => None
      case Some(m) => if IdUsed(parsed, m.id) then None else ParseLines(lines[1..], parsed + [m])
  }

  /** The last newline ends the text instead of opening an empty line. */
  function BodyLines(parts: seq<Text>): seq<Text>
    requires parts != []
  {
    if parts[|parts| - 1] == [] then parts[..|parts| - 1] else parts
  }

  function Parse(body: Text): Option<Publication> {
    var parts := Split(body, NEWLINE);
    if !IdValid(parts[0]) || |parts| == 1 then None
    else
      match ParseLines(BodyLines(parts[1..]), [])
      case None => None
      case Some(items) =>
        if items == [] then None else Some(Publication(parts[0], items, TransferRuns.DeclaredTotal(items)))
  }

  /** A whole publication request on the queue. */
  function AfterRequest(q: Queue, body: Text): Queue {
    match Parse(body)
    case None => q
    case Some(p) => AfterPublish(q, p.id, p.items, p.total)
  }

  // ---- printing then decoding one field ----

  lemma {:induction false} HexRoundTrip(b: byte)
    ensures HexValue(HexDigit(b / 16)) * 16 + HexValue(HexDigit(b % 16)) == b
    ensures HexValue(HexDigit(b / 16)) >= 0 && HexValue(HexDigit(b % 16)) >= 0
  {
  }

  lemma {:induction false} QuoteRoundTrip(s: Text, capacity: nat)
    requires Clean(s) && |s| < capacity
    ensures Decode(Quote(s), capacity) == Some(s)
  {
    if s != [] {
      QuoteRoundTrip(s[1..], capacity - 1);
      HexRoundTrip(s[0]);
      var head := if Unreserved(s[0]) then [s[0]] else [PERCENT, HexDigit(s[0] / 16), HexDigit(s[0] % 16)];
      assert Quote(s) == head + Quote(s[1..]);
      assert Quote(s)[|head|..] == Quote(s[1..]);
      assert s == [s[0]] + s[1..];
    }
  }

  lemma {:induction false} QuoteHasNoControls(s: Text)
    ensures forall i :: 0 <= i < |Quote(s)| ==> Quote(s)[i] != TAB && Quote(s)[i] != NEWLINE
  {
    if s != [] {
      QuoteHasNoControls(s[1..]);
    }
  }

  lemma {:induction false} QuoteKeepsUnreserved(s: Text)
    requires forall i :: 0 <= i < |s| ==> Unreserved(s[i])
    ensures Quote(s) == s
  {
    if s != [] {
      QuoteKeepsUnreserved(s[1..]);
    }
  }

  lemma {:induction false} DecimalFromConcat(a: Text, b: Text, value: nat)
    ensures DecimalFrom(a + b, value) == match DecimalFrom(a, value) case None => None case Some(v) => DecimalFrom(b, v)
  {
    if a == [] {
      assert a + b == b;
    } else {
      assert (a + b)[1..] == a[1..] + b;
      if 48 <= a[0] <= 57 && value <= DECIMAL_LIMIT {
        DecimalFromConcat(a[1..], b, value * 10 + (a[0] - 48));
      }
    }
  }

  lemma {:induction false} DecimalRoundTrip(n: nat)
    requires n / 10 <= DECIMAL_LIMIT
    ensures ParseDecimal(Decimal(n)) == Some(n)
    ensures Decimal(n) != [] && forall i :: 0 <= i < |Decimal(n)| ==> 48 <= Decimal(n)[i] <= 57
  {
    var digit: Text := [48 + n % 10];
    assert DecimalFrom(digit, n / 10) == DecimalFrom(digit[1..], n / 10 * 10 + n % 10);
    if n >= 10 {
      DecimalRoundTrip(n / 10);
      DecimalFromConcat(Decimal(n / 10), digit, 0);
    }
  }

  /** The parser never lets a 64-bit number wrap. */
  lemma {:induction false} ParsedDecimalFits(s: Text, value: nat)
    requires value < U64
    ensures DecimalFrom(s, value).Some? ==> DecimalFrom(s, value).value < U64
  {
    if s != [] && 48 <= s[0] <= 57 && value <= DECIMAL_LIMIT {
      ParsedDecimalFits(s[1..], value * 10 + (s[0] - 48));
    }
  }

  lemma {:induction false} DecodedFits(s: Text, capacity: nat)
    ensures Decode(s, capacity).Some? && capacity > 0 ==> Fits(Decode(s, capacity).value, capacity - 1)
  {
    if s != [] {
      var escaped := s[0] == PERCENT;
      if !(escaped && (|s| < 3 || HexValue(s[1]) < 0 || HexValue(s[2]) < 0)) && capacity > 1 {
        DecodedFits(s[if escaped then 3 else 1..], capacity - 1);
      }
    }
  }

  // ---- the lines of a payload ----

  lemma {:induction false} LineFields(m: Metadata)
    ensures Split(Line(m), TAB) == QuoteAll(Fields(m))
    ensures NEWLINE !in Line(m)
  {
    var quoted := QuoteAll(Fields(m));
    forall i | 0 <= i < |quoted| ensures TAB !in quoted[i] && NEWLINE !in quoted[i] {
      QuoteHasNoControls(Fields(m)[i]);
    }
    SplitJoin(quoted, TAB);
    JoinAvoids(quoted, TAB, NEWLINE);
  }

  function LineList(items: seq<Metadata>): (r: seq<Text>)
    ensures |r| == |items|
    ensures forall i :: 0 <= i < |items| ==> r[i] == Line(items[i])
  {
    seq(|items|, i requires 0 <= i < |items| => Line(items[i]))
  }

  lemma {:induction false} SplitLines(items: seq<Metadata>)
    ensures Split(Lines(items), NEWLINE) == LineList(items) + [[]]
  {
    if items != [] {
      LineFields(items[0]);
      SplitAtFirst(Line(items[0]), Lines(items[1..]), NEWLINE);
      SplitLines(items[1..]);
      assert LineList(items) == [Line(items[0])] + LineList(items[1..]);
    }
  }

  // ---- the round trip ----

  lemma {:induction false} IdIsUnreserved(id: Text)
    requires IdValid(id)
    ensures Quote(id) == id && NEWLINE !in id
  {
    QuoteKeepsUnreserved(id);
  }

  lemma {:induction false} ExtensionIsClean(m: Metadata)
    requires Valid(m)
    ensures Fits(m.extension, 7)
  {
  }

  lemma {:induction false} NumberRoundTrip(n: nat)
    requires n < U64 / 2
    ensures ParseDecimal(Quote(Decimal(n))) == Some(n)
  {
    DecimalRoundTrip(n);
    QuoteKeepsUnreserved(Decimal(n));
  }

  /** The text fields of a printed line, as they stand in it. */
  predicate TextsPrinted(m: Metadata, f: seq<Text>)
    requires |f| == 16
  {
    && f[0] == m.id && f[1] == Quote(m.extension) && f[5] == Quote(m.name) && f[6] == Quote(m.title)
    && f[7] == Quote(m.artist) && f[8] == Quote(m.album) && f[9] == Quote(m.albumArtist)
    && f[10] == Quote(m.genre) && f[15] == Quote(m.folder)
  }

  predicate NumbersPrinted(m: Metadata, f: seq<Text>)
    requires |f| == 16
  {
    && f[2] == Quote(Decimal(m.size)) && f[3] == Quote(Decimal(m.subtitleSize)) && f[4] == Quote(Decimal(m.kind))
    && f[11] == Quote(Decimal(m.durationMs)) && f[12] == Quote(Decimal(m.sampleRate))
    && f[13] == Quote(Decimal(m.channels)) && f[14] == Quote(Decimal(m.track))
  }

  lemma {:induction false} TextsRoundTrip(m: Metadata, f: seq<Text>)
    requires Valid(m) && |f| == 16 && TextsPrinted(m, f)
    ensures Texts(f) == Some(Metadata(m.id, m.extension, 0, 0, 0, m.name, m.title, m.artist, m.album,
                                      m.albumArtist, m.genre, 0, 0, 0, 0, m.folder))
  {
    ExtensionIsClean(m);
    QuoteRoundTrip(m.extension, 8);
    QuoteRoundTrip(m.name, 256);
    QuoteRoundTrip(m.title, 256);
    QuoteRoundTrip(m.artist, 256);
    QuoteRoundTrip(m.album, 256);
    QuoteRoundTrip(m.albumArtist, 256);
    QuoteRoundTrip(m.genre, 128);
    QuoteRoundTrip(m.folder, 256);
  }

  lemma {:induction false} NumbersRoundTrip(m: Metadata, texts: Metadata, f: seq<Text>)
    requires Valid(m) && |f| == 16 && NumbersPrinted(m, f)
    ensures Numbers(f, texts)
         == Some(texts.(size := m.size, subtitleSize := m.subtitleSize, kind := m.kind, durationMs := m.durationMs,
                        sampleRate := m.sampleRate, channels := m.channels, track := m.track))
  {
    NumberRoundTrip(m.size);
    NumberRoundTrip(m.subtitleSize);
    NumberRoundTrip(m.kind);
    NumberRoundTrip(m.durationMs);
    NumberRoundTrip(m.sampleRate);
    NumberRoundTrip(m.channels);
    NumberRoundTrip(m.track);
  }

  lemma {:induction false} TextsArePrinted(m: Metadata, fields: seq<Text>)
    requires IdValid(m.id) && fields == Fields(m)
    ensures |fields| == 16 && TextsPrinted(m, QuoteAll(fields))
  {
    IdIsUnreserved(m.id);
    assert fields[0] == m.id && fields[1] == m.extension && fields[5] == m.name && fields[6] == m.title;
    assert fields[7] == m.artist && fields[8] == m.album && fields[9] == m.albumArtist;
    assert fields[10] == m.genre && fields[15] == m.folder;
  }

  lemma {:induction false} NumbersArePrinted(m: Metadata, fields: seq<Text>)
    requires fields == Fields(m)
    ensures |fields| == 16 && NumbersPrinted(m, QuoteAll(fields))
  {
  }

  lemma {:induction false} LineRoundTrip(m: Metadata)
    requires Valid(m)
    ensures ParseFields(Split(Line(m), TAB)) == Some(m)
  {
    LineFields(m);
    var f := QuoteAll(Fields(m));
    TextsArePrinted(m, Fields(m));
    NumbersArePrinted(m, Fields(m));
    TextsRoundTrip(m, f);
    NumbersRoundTrip(m, Texts(f).value, f);
  }

  predicate DistinctIds(items: seq<Metadata>) {
    forall i, j :: 0 <= i < j < |items| ==> items[i].id != items[j].id
  }

  lemma {:induction false} LinesRoundTrip(items: seq<Metadata>, parsed: seq<Metadata>)
    requires |parsed| + |items| <= QUEUE_MAX
    requires forall i :: 0 <= i < |items| ==> Valid(items[i])
    requires DistinctIds(parsed + items)
    ensures ParseLines(LineList(items), parsed) == Some(parsed + items)
  {
    if items == [] {
      assert parsed + items == parsed;
    } else {
      LineRoundTrip(items[0]);
      assert LineList(items)[1..] == LineList(items[1..]);
      HeadIsUnused(parsed, items);
      assert parsed + [items[0]] + items[1..] == parsed + items;
      LinesRoundTrip(items[1..], parsed + [items[0]]);
    }
  }

  lemma {:induction false} HeadIsUnused(parsed: seq<Metadata>, items: seq<Metadata>)
    requires items != [] && DistinctIds(parsed + items)
    ensures !IdUsed(parsed, items[0].id)
  {
    var all := parsed + items;
    assert all[|parsed|] == items[0];
    assert forall i :: 0 <= i < |parsed| ==> all[i] == parsed[i];
  }

  /** The publications the two sides agree on. */
  predicate ValidPublication(p: Publication) {
    && IdValid(p.id)
    && 1 <= |p.items| <= QUEUE_MAX
    && (forall i :: 0 <= i < |p.items| ==> Valid(p.items[i]))
    && DistinctIds(p.items)
    && p.total == TransferRuns.DeclaredTotal(p.items)
  }

  /** The Vita stores exactly what the desktop sent. */
  lemma {:induction false} PayloadRoundTrip(p: Publication)
    requires ValidPublication(p)
    ensures Parse(Payload(p.id, p.items)) == Some(p)
  {
    IdIsUnreserved(p.id);
    SplitAtFirst(p.id, Lines(p.items), NEWLINE);
    SplitLines(p.items);
    var parts := Split(Payload(p.id, p.items), NEWLINE);
    assert parts == [p.id] + (LineList(p.items) + [[]]);
    assert parts[1..] == LineList(p.items) + [[]];
    assert BodyLines(parts[1..]) == LineList(p.items);
    assert [] + p.items == p.items;
    LinesRoundTrip(p.items, []);
  }

  // ---- what any accepted body guarantees ----

  lemma {:induction false} ParsedFieldsValid(fields: seq<Text>)
    ensures ParseFields(fields).Some? ==> Valid(ParseFields(fields).value)
  {
  }

  lemma {:induction false} ParsedLinesValid(lines: seq<Text>, parsed: seq<Metadata>)
    requires |parsed| <= QUEUE_MAX && DistinctIds(parsed)
    requires forall i :: 0 <= i < |parsed| ==> Valid(parsed[i])
    ensures var r := ParseLines(lines, parsed);
            r.Some? ==> && |r.value| == |parsed| + |lines| <= QUEUE_MAX
                        && DistinctIds(r.value) && forall i :: 0 <= i < |r.value| ==> Valid(r.value[i])
  {
    if lines != [] && |parsed| < QUEUE_MAX {
      var m := ParseFields(Split(lines[0], TAB));
      if m.Some? && !IdUsed(parsed, m.value.id) {
        ParsedFieldsValid(Split(lines[0], TAB));
        ParsedLinesValid(lines[1..], parsed + [m.value]);
      }
    }
  }

  lemma {:induction false} TotalBounded(items: seq<Metadata>)
    requires forall i :: 0 <= i < |items| ==> Valid(items[i])
    ensures TransferRuns.DeclaredTotal(items) <= |items| * (MAX_MEDIA + MAX_SUBTITLE)
  {
    if items != [] {
      TotalBounded(items[1..]);
      assert |items| * (MAX_MEDIA + MAX_SUBTITLE) == |items[1..]| * (MAX_MEDIA + MAX_SUBTITLE) + (MAX_MEDIA + MAX_SUBTITLE);
    }
  }

  lemma {:induction false} ParsedIsValid(body: Text)
    requires Parse(body).Some?
    ensures ValidPublication(Parse(body).value)
  {
    ParsedLinesValid(BodyLines(Split(body, NEWLINE)[1..]), []);
  }

  /** Only valid publications are accepted, their total fits 64 bits, and they print back to themselves. */
  lemma {:induction false} AcceptedIsValid(body: Text)
    requires Parse(body).Some?
    ensures var p := Parse(body).value;
            && ValidPublication(p) && p.total < U64
            && TransferRuns.Publishable(p.items)
            && Parse(Payload(p.id, p.items)) == Some(p)
  {
    ParsedIsValid(body);
    var p := Parse(body).value;
    TotalBounded(p.items);
    assert |p.items| * (MAX_MEDIA + MAX_SUBTITLE) <= QUEUE_MAX * (MAX_MEDIA + MAX_SUBTITLE) < U64;
    PayloadRoundTrip(p);
  }

  /** A request leaves the queue as it is exactly if it does not parse or another transfer is active. */
  lemma {:induction false} UnchangedExactlyWhenRejected(q: Queue, body: Text)
    ensures AfterRequest(q, body) == q <==> Parse(body).None? || !PublishAccepted(q)
  {
    hide Parse;
    assert Bump(q.revision) != q.revision;
  }

  // ---- the desktop's text fields ----

  /** Control characters become spaces. */
  function Sanitized(value: seq<Scalar>): (r: seq<Scalar>)
    ensures |r| == |value|
  {
    seq(|value|, i requires 0 <= i < |value| => if value[i] < 32 || value[i] == 127 then 32 else value[i])
  }

  /** Encoding, cutting at `room` bytes and dropping the character that was cut. */
  function Cut(value: seq<Scalar>, room: nat): seq<Scalar> {
    if value == [] || |EncodeScalar(value[0])| > room then []
    else [value[0]] + Cut(value[1..], room - |EncodeScalar(value[0])|)
  }

  function TextField(value: seq<Scalar>, capacity: nat): Text
    requires capacity > 0
  {
    Encode(Cut(Sanitized(value), capacity - 1))
  }

  lemma {:induction false} CutFits(value: seq<Scalar>, room: nat)
    requires forall i :: 0 <= i < |value| ==> value[i] >= 32 && value[i] != 127
    ensures Fits(Encode(Cut(value, room)), room)
    ensures Cut(value, room) <= value
    ensures |Encode(value)| <= room ==> Cut(value, room) == value
    ensures var k := |Cut(value, room)|;
            k < |value| ==> |Encode(Cut(value, room))| + |EncodeScalar(value[k])| > room
  {
    if value != [] && |EncodeScalar(value[0])| <= room {
      var rest := room - |EncodeScalar(value[0])|;
      CutFits(value[1..], rest);
      var cut := [value[0]] + Cut(value[1..], rest);
      assert cut[1..] == Cut(value[1..], rest);
      assert value == [value[0]] + value[1..];
    }
  }

  /** What the desktop stores in a text field always passes the Vita's limits, whatever the file's tags say. */
  lemma {:induction false} TextFieldFits(value: seq<Scalar>, capacity: nat)
    requires capacity > 0
    ensures Fits(TextField(value, capacity), capacity - 1)
    ensures Decode(Quote(TextField(value, capacity)), capacity) == Some(TextField(value, capacity))
  {
    CutFits(Sanitized(value), capacity - 1);
    QuoteRoundTrip(TextField(value, capacity), capacity);
  }
}
