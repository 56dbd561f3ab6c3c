/** Frames and pictures as a tagger writes them, and what the parser reads of them. */
module Id3Written {
  import opened Bytes
  import opened Utf8
  import opened Id3Text
  import opened Id3Tag
  import Boxes

  // ---- texts ----

  lemma {:induction false} Latin1Reads(p: Text, i: nat)
    requires i <= |p| && forall k :: i <= k < |p| ==> p[k] != 0
    ensures Latin1(p, i) == p[i..]
    decreases |p| - i
  {
    if i < |p| {
      Latin1Reads(p, i + 1);
      assert p[i..] == [p[i]] + p[i + 1..];
    }
  }

  /** An ISO-8859-1 frame decodes to the same characters in UTF-8. */
  lemma {:induction false} Latin1RoundTrip(s: Text, capacity: nat)
    requires s != [] && 0 !in s && |Encode(s)| < capacity
    ensures FrameText([0] + s, capacity) == Some(Encode(s))
  {
    hide Latin1, Encode;
    var p := [0] + s;
    assert forall k :: 1 <= k < |p| ==> p[k] == s[k - 1] && s[k - 1] in s;
    Latin1Reads(p, 1);
    assert p[1..] == s;
  }

  /** The bytes of each pair exchanged, from `i` on. */
  predicate Swapped(p: Text, q: Text, i: nat) {
    |p| == |q| && forall k :: i <= k < |p| - 1 && (k - i) % 2 == 0 ==> p[k] == q[k + 1] && p[k + 1] == q[k]
  }

  lemma {:induction false} SwappedFurther(p: Text, q: Text, i: nat)
    requires Swapped(p, q, i)
    ensures Swapped(p, q, i + 2)
  {
    forall k | i + 2 <= k < |p| - 1 && (k - (i + 2)) % 2 == 0 ensures p[k] == q[k + 1] && p[k + 1] == q[k] {
      assert (k - i) % 2 == 0;
    }
  }

  /** Both byte orders of UTF-16 decode alike. */
  lemma {:induction false} ByteOrdersAgree(p: Text, q: Text, i: nat)
    requires Swapped(p, q, i)
    ensures Utf16(p, i, false) == Utf16(q, i, true)
    decreases |p| - i
  {
    if i + 1 < |p| {
      UnitsSwap(p, q, i);
      SwappedFurther(p, q, i);
      if i + 3 < |p| {
        UnitsSwap(p, q, i + 2);
        SwappedFurther(p, q, i + 2);
        ByteOrdersAgree(p, q, i + 4);
      }
      ByteOrdersAgree(p, q, i + 2);
      hide Swapped, Unit;
    }
  }

  lemma {:induction false} UnitsSwap(p: Text, q: Text, i: nat)
    requires Swapped(p, q, i) && i + 1 < |p|
    ensures |p| == |q| && Unit(p, i, false) == Unit(q, i, true)
  {
    assert (i - i) % 2 == 0 && p[i] == q[i + 1] && p[i + 1] == q[i];
  }

  // ---- the tag's size ----

  /** Twenty-eight bits, seven to a byte. */
  function SyncSafe(n: nat): Text
    requires n < 0x1000_0000
  {
    [n / 0x20_0000, n / 0x4000 % 128, n / 0x80 % 128, n % 128]
  }

  /** Every size up to 2^28 - 1 is read as it was written. */
  lemma {:induction false} TagSizeReads(d: Text, n: nat)
    requires n < 0x1000_0000 && |d| >= 10 && d[6..10] == SyncSafe(n)
    ensures TagSize(d) == n && d[6] < 128 && d[7] < 128 && d[8] < 128 && d[9] < 128
  {
    var s := d[6..10];
    assert d[6] == s[0] && d[7] == s[1] && d[8] == s[2] && d[9] == s[3];
    var a := n / 0x80;
    var b := a / 0x80;
    assert b == n / 0x4000 && b / 0x80 == n / 0x20_0000;
  }

  // ---- JPEG ----

  datatype Segment = Segment(marker: byte, body: Text)

  function SegmentText(s: Segment): (t: Text)
    requires |s.body| + 2 < U16
    ensures |t| == 4 + |s.body|
  {
    [0xff, s.marker] + Boxes.Be16(|s.body| + 2) + s.body
  }

  /** A segment that says nothing about the dimensions. */
  predicate Passed(s: Segment) {
    && |s.body| + 2 < U16 && s.marker !in {0x01, 0xc0, 0xc2, 0xd9, 0xda, 0xff} && !(0xd0 <= s.marker <= 0xd7)
  }

  function FrameHeader(progressive: bool, precision: byte, size: Size, more: Text): Segment
    requires size.width < U16 && size.height < U16
  {
    Segment(if progressive then 0xc2 else 0xc0, [precision] + Boxes.Be16(size.height) + Boxes.Be16(size.width) + more)
  }

  function SegmentsText(segments: seq<Segment>): Text
    requires forall i :: 0 <= i < |segments| ==> Passed(segments[i])
  {
    if segments == [] then []
    else
      assert Passed(segments[0]);
      SegmentText(segments[0]) + SegmentsText(segments[1..])
  }

  lemma {:induction false} SegmentReads(d: Text, pos: nat, s: Segment)
    requires |s.body| + 2 < U16 && Boxes.At(d, pos, SegmentText(s))
    ensures pos + 4 + |s.body| <= |d| && d[pos] == 0xff && d[pos + 1] == s.marker && Boxes.Read16(d, pos + 2) == |s.body| + 2
    ensures Boxes.At(d, pos + 4, s.body)
  {
    hide Boxes.Be16, Boxes.Read16;
    var head: Text := [0xff, s.marker];
    Boxes.AtParts(d, pos, head + Boxes.Be16(|s.body| + 2), s.body);
    Boxes.AtParts(d, pos, head, Boxes.Be16(|s.body| + 2));
    assert d[pos..pos + 2][0] == d[pos] && d[pos..pos + 2][1] == d[pos + 1];
    Boxes.Read16At(d, pos + 2, |s.body| + 2);
  }

  lemma {:induction false} NoFill(d: Text, pos: nat)
    requires pos < |d| && d[pos] != 0xff
    ensures SkipFill(d, pos) == pos
  {
  }

  lemma {:induction false} ScanPasses(d: Text, pos: nat, s: Segment)
    requires Passed(s) && Boxes.At(d, pos, SegmentText(s))
    ensures JpegScan(d, pos) == JpegScan(d, pos + 4 + |s.body|)
  {
    SegmentReads(d, pos, s);
    NoFill(d, pos + 1);
    hide SkipFill, Boxes.Read16, SegmentText;
  }

  lemma {:induction false} ScanFinds(d: Text, pos: nat, progressive: bool, precision: byte, size: Size, more: Text)
    requires 0 < size.width < U16 && 0 < size.height < U16 && |more| + 7 < U16
    requires Boxes.At(d, pos, SegmentText(FrameHeader(progressive, precision, size, more)))
    ensures JpegScan(d, pos) == Some(size)
  {
    hide Boxes.Be16, Boxes.Read16, SkipFill;
    var s := FrameHeader(progressive, precision, size, more);
    SegmentReads(d, pos, s);
    NoFill(d, pos + 1);
    var p, h, w := [precision], Boxes.Be16(size.height), Boxes.Be16(size.width);
    Boxes.AtParts(d, pos + 4, p + h + w, more);
    Boxes.AtParts(d, pos + 4, p + h, w);
    Boxes.AtParts(d, pos + 4, p, h);
    Boxes.Read16At(d, pos + 5, size.height);
    Boxes.Read16At(d, pos + 7, size.width);
  }

  lemma {:induction false} ScanPassesAll(d: Text, pos: nat, segments: seq<Segment>)
    requires forall i :: 0 <= i < |segments| ==> Passed(segments[i])
    requires Boxes.At(d, pos, SegmentsText(segments))
    ensures JpegScan(d, pos) == JpegScan(d, pos + |SegmentsText(segments)|)
    decreases |segments|
  {
    hide JpegScan, SegmentText, Passed;
    if segments != [] {
      PassedFits(segments[0]);
      Boxes.AtParts(d, pos, SegmentText(segments[0]), SegmentsText(segments[1..]));
      ScanPasses(d, pos, segments[0]);
      ScanPassesAll(d, pos + |SegmentText(segments[0])|, segments[1..]);
    }
  }

  lemma {:induction false} PassedFits(s: Segment)
    requires Passed(s)
    ensures |s.body| + 2 < U16
  {
  }

  /** A JPEG file: the start marker, segments, the frame header, and the rest. */
  function Jpeg(segments: seq<Segment>, frame: Segment, rest: Text): Text
    requires (forall i :: 0 <= i < |segments| ==> Passed(segments[i])) && |frame.body| + 2 < U16
  {
    [0xff, 0xd8] + SegmentsText(segments) + SegmentText(frame) + rest
  }

  /** The dimensions of a JPEG file are those of its frame header, behind any other segments. */
  lemma {:induction false} JpegReads(segments: seq<Segment>, progressive: bool, precision: byte, size: Size, more: Text, rest: Text)
    requires forall i :: 0 <= i < |segments| ==> Passed(segments[i])
    requires 0 < size.width < U16 && 0 < size.height < U16 && |more| + 7 < U16
    ensures JpegSize(Jpeg(segments, FrameHeader(progressive, precision, size, more), rest)) == Some(size)
  {
    var frame := FrameHeader(progressive, precision, size, more);
    hide JpegScan, SegmentsText, SegmentText, Passed, FrameHeader;
    var d := Jpeg(segments, frame, rest);
    PartsOfFour(d, [0xff, 0xd8], SegmentsText(segments), SegmentText(frame), rest);
    ScanPassesAll(d, 2, segments);
    ScanFinds(d, 2 + |SegmentsText(segments)|, progressive, precision, size, more);
  }

  lemma {:induction false} PartsOfFour(d: Text, start: Text, a: Text, b: Text, rest: Text)
    requires d == start + a + b + rest && |start| == 2
    ensures Boxes.At(d, 2, a) && Boxes.At(d, 2 + |a|, b) && d[0] == start[0] && d[1] == start[1]
  {
    assert Boxes.At(d, 0, start + a + b + rest);
    hide Boxes.At;
    Boxes.AtParts(d, 0, start + a + b, rest);
    Boxes.AtParts(d, 0, start + a, b);
    Boxes.AtParts(d, 0, start, a);
  }

  // ---- attached pictures ----

  lemma {:induction false} ZeroFound(p: Text, i: nat, z: nat)
    requires i <= z < |p| && p[z] == 0 && forall k :: i <= k < z ==> p[k] != 0
    ensures ZeroFrom(p, i) == z
    decreases z - i
  {
    if i < z { ZeroFound(p, i + 1, z); }
  }

  /** A front-cover frame with a one-byte text encoding. */
  function Apic(encoding: byte, description: Text, picture: Text): Text {
    [encoding] + JPEG_MIME + [0, 3] + description + [0] + picture
  }

  /** The cover of a written front-cover frame is exactly the picture in it. */
  lemma {:induction false} ApicReads(encoding: byte, description: Text, picture: Text, at: nat)
    requires encoding in {0, 3} && 0 !in description && JpegSize(picture).Some?
    ensures CoverOf(Apic(encoding, description, picture), at)
         == Some(Cover(at + 14 + |description|, |picture|, JpegSize(picture).value))
  {
    hide JpegSize, ZeroFrom;
    var p := Apic(encoding, description, picture);
    var z := 13 + |description|;
    PictureNotShort(picture);
    assert p[1..11] == JPEG_MIME && p[11] == 0 && p[12] == 3 && p[0] == encoding;
    assert forall k :: 1 <= k < 11 ==> p[k] == JPEG_MIME[k - 1] && JPEG_MIME[k - 1] != 0;
    ZeroFound(p, 1, 11);
    assert forall k :: 13 <= k < z ==> p[k] == description[k - 13] && description[k - 13] in description;
    assert p[z] == 0;
    ZeroFound(p, 13, z);
    assert p[z + 1..] == picture;
  }

  lemma {:induction false} PictureNotShort(picture: Text)
    requires JpegSize(picture).Some?
    ensures |picture| >= 4
  {
  }
}
