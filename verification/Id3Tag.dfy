/**
  ID3v2.3 tags (sections 3.1, 3.3 and 4.15 of ID3v2.3.0) as `vcm_parse_id3v23` in src/vita/id3_tags.c
  reads them: framing, the frames that count, and the JPEG cover.
 */
module Id3Tag {
  import opened Bytes
  import opened Utf8
  import opened Id3Text
  import Boxes

  // ---- track numbers ----

  predicate IsDigit(b: byte) { 48 <= b <= 57 }

  /** How many digits the text starts with. */
  function Digits(s: Text): (n: nat)
    ensures n <= |s| && (forall i :: 0 <= i < n ==> IsDigit(s[i])) && (n < |s| ==> !IsDigit(s[n]))
  {
    if s == [] || !IsDigit(s[0]) then 0 else 1 + Digits(s[1..])
  }

  function Value(s: Text): nat
    requires forall i :: 0 <= i < |s| ==> IsDigit(s[i])
  {
    if s == [] then 0
    else
      assert IsDigit(s[|s| - 1]);
      Value(s[..|s| - 1]) * 10 + (s[|s| - 1] as int - 48)
  }

  function TrackOf(s: Text): Option<nat> {
    var v := Value(s[..Digits(s)]);
    if Digits(s) > 0 && 1 <= v <= 9999 then Some(v) else None
  }

  lemma {:induction false} ValueGrows(s: Text, k: nat)
    requires k <= |s| && forall i :: 0 <= i < |s| ==> IsDigit(s[i])
    ensures Value(s[..k]) <= Value(s)
    decreases |s| - k
  {
    if k == |s| {
      assert s[..k] == s;
    } else {
      assert s[..k + 1][..k] == s[..k];
      ValueGrows(s, k + 1);
    }
  }

  /** The early exit on large values never changes the result. */
  method ParseTrack(s: Text) returns (track: Option<nat>)
    ensures track == TrackOf(s)
  {
    var result, digits := 0, 0;
    ghost var all := s[..Digits(s)];
    while digits < |s| && IsDigit(s[digits])
      invariant 0 <= digits <= Digits(s) && result == Value(all[..digits])
    {
      if result > 9999 {
        ValueGrows(all, digits);
        return None;
      }
      assert all[..digits + 1][..digits] == all[..digits];
      result := result * 10 + (s[digits] as int - 48);
      digits := digits + 1;
    }
    assert all[..digits] == all;
    track := if digits == 0 || result == 0 || result > 9999 then None else Some(result);
  }

  // ---- JPEG dimensions ----

  datatype Size = Size(width: nat, height: nat)

  /** The next position that is not a fill byte. */
  function SkipFill(d: Text, pos: nat): (r: nat)
    requires pos <= |d|
    ensures pos <= r <= |d| && (r < |d| ==> d[r] != 0xff)
    decreases |d| - pos
  {
    if pos < |d| && d[pos] == 0xff then SkipFill(d, pos + 1) else pos
  }

  predicate NoSegment(marker: byte) { marker == 1 || 0xd0 <= marker <= 0xd7 }

  /** The dimensions in the first baseline or progressive frame header from `pos` on. */
  function JpegScan(d: Text, pos: nat): Option<Size>
    decreases |d| - pos
  {
    if pos + 4 > |d| || d[pos] != 0xff then None
    else
      var m := SkipFill(d, pos + 1);
      if m >= |d| || d[m] == 0xd9 || d[m] == 0xda then None
      else if NoSegment(d[m]) then JpegScan(d, m + 1)
      else if m + 3 > |d| then None
      else
        var segment := Boxes.Read16(d, m + 1);
        if segment < 2 || segment > |d| - (m + 1) then None
        else if (d[m] == 0xc0 || d[m] == 0xc2) && segment >= 7 then
          var size := Size(Boxes.Read16(d, m + 6), Boxes.Read16(d, m + 4));
          if size.width > 0 && size.height > 0 then Some(size) else None
        else JpegScan(d, m + 1 + segment)
  }

  function JpegSize(d: Text): Option<Size> {
    if |d| < 4 || d[0] != 0xff || d[1] != 0xd8 then None else JpegScan(d, 2)
  }

  /** The scanning loop never leaves the data. */
  method JpegDimensions(d: Text) returns (size: Option<Size>)
    ensures size == JpegSize(d)
  {
    if |d| < 4 || d[0] != 0xff || d[1] != 0xd8 { return None; }
    var pos := 2;
    while pos + 4 <= |d|
      invariant 2 <= pos && JpegScan(d, pos) == JpegSize(d)
      decreases |d| - pos
    {
      if d[pos] != 0xff { return None; }
      var start := pos + 1;
      pos := start;
      while pos < |d| && d[pos] == 0xff
        invariant start <= pos <= |d| && SkipFill(d, pos) == SkipFill(d, start)
      {
        pos := pos + 1;
      }
      if pos >= |d| { return None; }
      var marker := d[pos];
      pos := pos + 1;
      if marker == 0xd9 || marker == 0xda { return None; }
      if NoSegment(marker) { continue; }
      if pos + 2 > |d| { return None; }
      var segment := Boxes.Read16(d, pos);
      if segment < 2 || segment > |d| - pos { return None; }
      if (marker == 0xc0 || marker == 0xc2) && segment >= 7 {
        var height, width := Boxes.Read16(d, pos + 3), Boxes.Read16(d, pos + 5);
        return if width > 0 && height > 0 then Some(Size(width, height)) else None;
      }
      pos := pos + segment;
    }
    size := None;
  }

  // ---- attached pictures ----

  datatype Cover = Cover(offset: nat, size: nat, dimensions: Size)

  function ZeroFrom(p: Text, i: nat): (r: nat)
    requires i <= |p|
    ensures i <= r <= |p| && (r < |p| ==> p[r] == 0)
    decreases |p| - i
  {
    if i < |p| && p[i] != 0 then ZeroFrom(p, i + 1) else i
  }

  /** The start of the next pair of zero bytes, or a position too close to the end. */
  function ZeroPairFrom(p: Text, i: nat): (r: nat)
    requires i <= |p|
    ensures i <= r <= |p| && (r + 1 < |p| ==> p[r] == 0 && p[r + 1] == 0)
    decreases |p| - i
  {
    if i + 1 < |p| && (p[i] != 0 || p[i + 1] != 0) then ZeroPairFrom(p, i + 2) else i
  }

  /** "image/jpeg". */
  const JPEG_MIME: Text := [105, 109, 97, 103, 101, 47, 106, 112, 101, 103]

  /** Where the picture data start: behind the encoding, MIME type, picture type 3 and description. */
  function PictureStart(p: Text): (r: Option<nat>)
    ensures r.Some? ==> 12 < r.value <= |p|
  {
    if |p| < 18 || p[0] > 3 then None
    else
      var m := ZeroFrom(p, 1);
      if m != 11 || p[1..11] != JPEG_MIME then None
      else if p[12] != 3 then None
      else if p[0] == 0 || p[0] == 3 then
        var z := ZeroFrom(p, 13);
        if z == |p| then None else Some(z + 1)
      else
        var z := ZeroPairFrom(p, 13);
        if z + 1 >= |p| then None else Some(z + 2)
  }

  function CoverOf(p: Text, at: nat): Option<Cover> {
    match PictureStart(p)
    case None => None
    case Some(start) =>
      match JpegSize(p[start..])
      case None => None
      case Some(size) => Some(Cover(at + start, |p| - start, size))
  }

  method FindZero(p: Text, from: nat) returns (r: nat)
    requires from <= |p|
    ensures r == ZeroFrom(p, from)
  {
    r := from;
    while r < |p| && p[r] != 0
      invariant from <= r <= |p| && ZeroFrom(p, r) == ZeroFrom(p, from)
    {
      r := r + 1;
    }
  }

  method FindZeroPair(p: Text, from: nat) returns (r: nat)
    requires from <= |p|
    ensures r == ZeroPairFrom(p, from)
  {
    r := from;
    while r + 1 < |p| && (p[r] != 0 || p[r + 1] != 0)
      invariant from <= r <= |p| && ZeroPairFrom(p, r) == ZeroPairFrom(p, from)
    {
      r := r + 2;
    }
  }

  method ParseApic(p: Text, at: nat) returns (cover: Option<Cover>)
    ensures cover == CoverOf(p, at)
  {
    hide ZeroFrom, ZeroPairFrom, JpegSize;
    if |p| < 18 || p[0] > 3 { return None; }
    var z := FindZero(p, 1);
    if z == |p| || z - 1 != 10 || p[1..11] != JPEG_MIME { return None; }
    if p[12] != 3 { return None; }
    if p[0] == 0 || p[0] == 3 {
      z := FindZero(p, 13);
      if z == |p| { return None; }
      z := z + 1;
    } else {
      z := FindZeroPair(p, 13);
      if z + 1 >= |p| { return None; }
      z := z + 2;
    }
    var size := JpegDimensions(p[z..]);
    if size.None? { return None; }
    cover := Some(Cover(at + z, |p| - z, size.value));
  }

  // ---- frames ----

  datatype Kind = Title | Artist | Album | AlbumArtist | Genre | Track | Picture | Other

  datatype Frame = Frame(kind: Kind, at: nat, size: nat)

  datatype Tags = Tags(title: Text, artist: Text, album: Text, albumArtist: Text, genre: Text, track: nat,
                       cover: Option<Cover>)

  const NO_TAGS: Tags := Tags([], [], [], [], [], 0, None)

  /** TIT2, TPE1, TALB, TPE2, TCON, TRCK and APIC. */
  function KindOf(id: Text): Kind {
    if id == [84, 73, 84, 50] then Title
    else if id == [84, 80, 69, 49] then Artist
    else if id == [84, 65, 76, 66] then Album
    else if id == [84, 80, 69, 50] then AlbumArtist
    else if id == [84, 67, 79, 78] then Genre
    else if id == [84, 82, 67, 75] then Track
    else if id == [65, 80, 73, 67] then Picture
    else Other
  }

  /** Four zero bytes start the padding. */
  predicate Padding(d: Text, at: nat)
    requires at + 4 <= |d|
  {
    d[at] == 0 && d[at + 1] == 0 && d[at + 2] == 0 && d[at + 3] == 0
  }

  /** The frame at `at`, if its size fits the tag and it carries no flags. */
  function FrameAt(d: Text, at: nat, end: nat): (r: Option<Frame>)
    requires at + 10 <= end <= |d|
    ensures r.Some? ==> r.value.at == at && r.value.size > 0 && at + 10 + r.value.size <= end
  {
    var size := Boxes.Read32(d, at + 4);
    if size == 0 || size > end - at - 10 || d[at + 8] != 0 || d[at + 9] != 0 then None
    else Some(Frame(KindOf(d[at..at + 4]), at, size))
  }

  /** All frames up to the padding or the end. */
  function Frames(d: Text, at: nat, end: nat): (r: Option<seq<Frame>>)
    requires at <= end <= |d|
    ensures r.Some? ==> AllInside(d, r.value, end)
    decreases end - at
  {
    if at + 10 > end || Padding(d, at) then Some([])
    else
      var f :- FrameAt(d, at, end);
      var rest :- Frames(d, at + 10 + f.size, end);
      Some([f] + rest)
  }

  predicate Inside(d: Text, f: Frame, end: nat) { f.at + 10 + f.size <= end <= |d| }

  predicate AllInside(d: Text, fs: seq<Frame>, end: nat) {
    forall i :: 0 <= i < |fs| ==> Inside(d, fs[i], end)
  }

  function Payload(d: Text, f: Frame): Text
    requires f.at + 10 + f.size <= |d|
  {
    d[f.at + 10..f.at + 10 + f.size]
  }

  /** What a text frame of this kind may hold. */
  function Capacity(k: Kind): nat { match k case Genre => 128 case Track => 32 case _ => 256 }

  /** One frame's effect. Unknown frames and unusable pictures have none; the first cover stays. */
  function Apply(d: Text, f: Frame, t: Tags): Option<Tags>
    requires f.at + 10 + f.size <= |d|
  {
    var p := Payload(d, f);
    match f.kind
    case Other => Some(t)
    case Picture => Some(if t.cover.Some? then t else t.(cover := CoverOf(p, f.at + 10)))
    case Track =>
      var text :- FrameText(p, 32);
      var n :- TrackOf(text);
      Some(t.(track := n))
    case _ =>
      var text :- FrameText(p, Capacity(f.kind));
      Some(WithText(t, f.kind, text))
  }

  function WithText(t: Tags, k: Kind, text: Text): Tags {
    match k
    case Title => t.(title := text)
    case Artist => t.(artist := text)
    case Album => t.(album := text)
    case AlbumArtist => t.(albumArtist := text)
    case _ => t.(genre := text)
  }

  function TextOf(t: Tags, k: Kind): Text {
    match k
    case Title => t.title
    case Artist => t.artist
    case Album => t.album
    case AlbumArtist => t.albumArtist
    case _ => t.genre
  }

  /** Reads the frames from `at` on into the tags. */
  function ReadFrames(d: Text, at: nat, end: nat, t: Tags): Option<Tags>
    requires at <= end <= |d|
    decreases end - at
  {
    if at + 10 > end || Padding(d, at) then Some(t)
    else
      var f :- FrameAt(d, at, end);
      var t' :- Apply(d, f, t);
      ReadFrames(d, at + 10 + f.size, end, t')
  }

  predicate HeaderOk(d: Text) {
    && |d| >= 10 && d[..6] == [73, 68, 51, 3, 0, 0]
    && d[6] < 128 && d[7] < 128 && d[8] < 128 && d[9] < 128
    && TagSize(d) <= |d| - 10
  }

  /** Seven bits a byte. */
  function TagSize(d: Text): nat
    requires |d| >= 10
  {
    d[6] as int * 0x20_0000 + d[7] as int * 0x4000 + d[8] as int * 0x80 + d[9] as int
  }

  function Parsed(d: Text): Option<Tags> {
    if !HeaderOk(d) then None
    else
      var t :- ReadFrames(d, 10, 10 + TagSize(d), NO_TAGS);
      if t.title == [] || t.artist == [] then None
      else Some(if t.albumArtist == [] then t.(albumArtist := t.artist) else t)
  }

  // ---- the parsing loop ----

  method ReadText(p: Text, capacity: nat) returns (text: Option<Text>)
    requires capacity >= 2
    ensures text == FrameText(p, capacity)
  {
    hide FrameText;
    var out := new byte[capacity];
    var ok, used := DecodeText(p, out);
    if !ok { return None; }
    text := Some(out[..used]);
  }

  method ApplyFrame(d: Text, f: Frame, t: Tags) returns (t': Option<Tags>)
    requires f.at + 10 + f.size <= |d|
    ensures t' == Apply(d, f, t)
  {
    hide FrameText, TrackOf, CoverOf;
    var p := d[f.at + 10..f.at + 10 + f.size];
    if f.kind.Other? { return Some(t); }
    if f.kind.Picture? {
      if t.cover.Some? { return Some(t); }
      var cover := ParseApic(p, f.at + 10);
      return Some(t.(cover := cover));
    }
    var text := ReadText(p, Capacity(f.kind));
    if text.None? { return None; }
    if f.kind.Track? {
      var n := ParseTrack(text.value);
      if n.None? { return None; }
      return Some(t.(track := n.value));
    }
    t' := Some(WithText(t, f.kind, text.value));
  }

  /** Reads a tag without ever leaving the data, and terminates on every input. */
  method ParseId3(d: Text) returns (tags: Option<Tags>)
    ensures tags == Parsed(d)
  {
    hide Apply, FrameAt;
    if !HeaderOk(d) { return None; }
    var t := NO_TAGS;
    var pos, end := 10, 10 + TagSize(d);
    while pos + 10 <= end && !Padding(d, pos)
      invariant 10 <= pos <= end <= |d|
      invariant ReadFrames(d, pos, end, t) == ReadFrames(d, 10, end, NO_TAGS)
    {
      var f := FrameAt(d, pos, end);
      if f.None? { return None; }
      var next := ApplyFrame(d, f.value, t);
      if next.None? { return None; }
      t := next.value;
      pos := pos + 10 + f.value.size;
    }
    if t.title == [] || t.artist == [] { return None; }
    tags := Some(if t.albumArtist == [] then t.(albumArtist := t.artist) else t);
  }

  // ---- what a parsed tag means ----

  predicate TextKind(k: Kind) { k in {Title, Artist, Album, AlbumArtist, Genre} }

  /** The text of the last frame of a kind, or `otherwise` if there is none. */
  function LastText(d: Text, end: nat, fs: seq<Frame>, k: Kind, otherwise: Text): Option<Text>
    requires AllInside(d, fs, end)
  {
    if fs == [] then Some(otherwise)
    else if fs[|fs| - 1].kind == k then FrameText(Payload(d, fs[|fs| - 1]), Capacity(k))
    else LastText(d, end, fs[..|fs| - 1], k, otherwise)
  }

  lemma {:induction false} LastTextFirst(d: Text, end: nat, f: Frame, rest: seq<Frame>, k: Kind, otherwise: Text, text: Text)
    requires AllInside(d, rest, end) && Inside(d, f, end)
    requires Some(text) == if f.kind == k then FrameText(Payload(d, f), Capacity(k)) else Some(otherwise)
    ensures LastText(d, end, [f] + rest, k, otherwise) == LastText(d, end, rest, k, text)
  {
    hide FrameText, Payload;
    var all := [f] + rest;
    if rest == [] {
      assert all == [f] && all[..0] == [];
    } else {
      var n := |rest| - 1;
      assert all[|all| - 1] == rest[n] && all[..|all| - 1] == [f] + rest[..n];
      LastTextFirst(d, end, f, rest[..n], k, otherwise, text);
    }
  }

  lemma {:induction false} ApplyText(d: Text, f: Frame, t: Tags, k: Kind)
    requires f.at + 10 + f.size <= |d| && TextKind(k) && Apply(d, f, t).Some?
    ensures Some(TextOf(Apply(d, f, t).value, k))
         == if f.kind == k then FrameText(Payload(d, f), Capacity(k)) else Some(TextOf(t, k))
  {
    hide FrameText, Payload, TrackOf, CoverOf;
  }

  lemma {:induction false} TextsComeFromFrames(d: Text, at: nat, end: nat, t: Tags, k: Kind)
    requires at <= end <= |d| && ReadFrames(d, at, end, t).Some? && TextKind(k)
    ensures Frames(d, at, end).Some?
    ensures LastText(d, end, Frames(d, at, end).value, k, TextOf(t, k)) == Some(TextOf(ReadFrames(d, at, end, t).value, k))
    decreases end - at
  {
    hide FrameAt, Padding, Apply, LastText;
    if at + 10 <= end && !Padding(d, at) {
      var f := FrameAt(d, at, end).value;
      var t' := Apply(d, f, t).value;
      TextsComeFromFrames(d, at + 10 + f.size, end, t', k);
      ApplyText(d, f, t, k);
      LastTextFirst(d, end, f, Frames(d, at + 10 + f.size, end).value, k, TextOf(t, k), TextOf(t', k));
    } else {
      LastOfNone(d, end, k, TextOf(t, k));
    }
  }

  lemma {:induction false} LastOfNone(d: Text, end: nat, k: Kind, text: Text)
    ensures LastText(d, end, [], k, text) == Some(text)
  {
  }

  /** The last frame of a kind. */
  function LastFrame(fs: seq<Frame>, k: Kind): (r: Option<Frame>)
    ensures r.Some? ==> r.value in fs && r.value.kind == k
    ensures r.None? ==> forall i :: 0 <= i < |fs| ==> fs[i].kind != k
  {
    if fs == [] then None
    else if fs[|fs| - 1].kind == k then Some(fs[|fs| - 1])
    else LastFrame(fs[..|fs| - 1], k)
  }

  /** The field is the UTF-8 form of the code points its last frame holds up to the first zero; without a frame it is empty. */
  ghost predicate HoldsFrame(d: Text, end: nat, fs: seq<Frame>, k: Kind, text: Text) {
    match LastFrame(fs, k)
    case None => text == []
    case Some(f) =>
      && Inside(d, f, end) && Points(Payload(d, f)).Some? && Points(Payload(d, f)).value != []
      && text == Encode(Points(Payload(d, f)).value) && 0 < |text| < Capacity(k)
  }

  lemma {:induction false} LastTextMeans(d: Text, end: nat, fs: seq<Frame>, k: Kind, text: Text)
    requires AllInside(d, fs, end) && LastText(d, end, fs, k, []) == Some(text)
    ensures HoldsFrame(d, end, fs, k, text)
  {
    hide Payload, Points, Encode;
    if fs != [] {
      var f := fs[|fs| - 1];
      assert Inside(d, f, end);
      if f.kind == k {
        EncodedSize(Points(Payload(d, f)).value);
      } else {
        LastTextMeans(d, end, fs[..|fs| - 1], k, text);
      }
    }
  }

  /**
    On success every text field is the code points of the last frame of its kind, up to their first
    zero, in UTF-8, and empty without such a frame; only the album artist falls back to the artist.
   */
  lemma {:induction false} FieldsAreTheLastFrames(d: Text, k: Kind)
    requires Parsed(d).Some? && TextKind(k)
    ensures HeaderOk(d) && Frames(d, 10, 10 + TagSize(d)).Some?
    ensures var t, end := Parsed(d).value, 10 + TagSize(d);
            var fs := Frames(d, 10, end).value;
            if k == AlbumArtist && LastFrame(fs, k).None? then t.albumArtist == t.artist
            else HoldsFrame(d, end, fs, k, TextOf(t, k))
  {
    hide ReadFrames, Frames, LastText, HoldsFrame;
    var end := 10 + TagSize(d);
    TextsComeFromFrames(d, 10, end, NO_TAGS, k);
    var raw := ReadFrames(d, 10, end, NO_TAGS).value;
    LastTextMeans(d, end, Frames(d, 10, end).value, k, TextOf(raw, k));
    HeldText(d, end, Frames(d, 10, end).value, k, TextOf(raw, k));
  }

  lemma {:induction false} HeldText(d: Text, end: nat, fs: seq<Frame>, k: Kind, text: Text)
    requires HoldsFrame(d, end, fs, k, text)
    ensures text == [] <==> LastFrame(fs, k).None?
  {
  }

  /** The track is unset or 1..9999, and a cover lies inside the tag and starts like a JPEG file. */
  predicate Sound(d: Text, end: nat, t: Tags) {
    && t.track <= 9999
    && (t.cover.Some? ==> CoverSound(d, end, t.cover.value))
  }

  predicate CoverSound(d: Text, end: nat, c: Cover) {
    && c.size >= 4 && c.offset + c.size <= end <= |d|
    && d[c.offset] == 0xff && d[c.offset + 1] == 0xd8
    && 0 < c.dimensions.width < 0x1_0000 && 0 < c.dimensions.height < 0x1_0000
  }

  lemma {:induction false} ScannedSize(d: Text, pos: nat)
    requires JpegScan(d, pos).Some?
    ensures 0 < JpegScan(d, pos).value.width < 0x1_0000 && 0 < JpegScan(d, pos).value.height < 0x1_0000
    decreases |d| - pos
  {
    var m := SkipFill(d, pos + 1);
    if NoSegment(d[m]) {
      ScannedSize(d, m + 1);
    } else {
      var segment := Boxes.Read16(d, m + 1);
      if !((d[m] == 0xc0 || d[m] == 0xc2) && segment >= 7) { ScannedSize(d, m + 1 + segment); }
    }
  }

  lemma {:induction false} CoverIsSound(d: Text, f: Frame, end: nat)
    requires Inside(d, f, end) && CoverOf(Payload(d, f), f.at + 10).Some?
    ensures CoverSound(d, end, CoverOf(Payload(d, f), f.at + 10).value)
  {
    hide JpegScan, PictureStart;
    var p := Payload(d, f);
    var start := PictureStart(p).value;
    ScannedSize(p[start..], 2);
    assert p[start..][0] == d[f.at + 10 + start] && p[start..][1] == d[f.at + 10 + start + 1];
  }

  lemma {:induction false} ApplySound(d: Text, f: Frame, end: nat, t: Tags)
    requires Inside(d, f, end) && Sound(d, end, t) && Apply(d, f, t).Some?
    ensures Sound(d, end, Apply(d, f, t).value)
  {
    hide FrameText, Payload, CoverOf, CoverSound, Digits, Value;
    if f.kind.Picture? && t.cover.None? && CoverOf(Payload(d, f), f.at + 10).Some? {
      CoverIsSound(d, f, end);
    }
  }

  lemma {:induction false} ReadingIsSound(d: Text, at: nat, end: nat, t: Tags)
    requires at <= end <= |d| && Sound(d, end, t) && ReadFrames(d, at, end, t).Some?
    ensures Sound(d, end, ReadFrames(d, at, end, t).value)
    decreases end - at
  {
    hide FrameAt, Padding, Apply, Sound;
    if at + 10 <= end && !Padding(d, at) {
      var f := FrameAt(d, at, end).value;
      ApplySound(d, f, end, t);
      ReadingIsSound(d, at + 10 + f.size, end, Apply(d, f, t).value);
    }
  }

  /** Every successful parse: title, artist and album artist are there, track and cover are sound. */
  lemma {:induction false} ParsedIsSound(d: Text)
    requires Parsed(d).Some?
    ensures var t := Parsed(d).value;
            && HeaderOk(d) && t.title != [] && t.artist != [] && t.albumArtist != []
            && Sound(d, 10 + TagSize(d), t)
  {
    hide ReadFrames;
    ReadingIsSound(d, 10, 10 + TagSize(d), NO_TAGS);
  }
}
