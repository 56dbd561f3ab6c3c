/**
  Counted UTF-16 strings (section 3.2.3 of the Media Transfer Protocol 1.1) as `string` in
  src/vita/mtp_wire.c writes them from NUL-terminated, possibly malformed UTF-8.
 */
module MtpString {
  import opened Bytes
  import opened Utf8

  const QUESTION: nat := 63
  const MAX_UNITS: nat := 254

  // ---- reading one code point ----

  /** A continuation byte at k; behind the text stands the terminator, which is none. */
  predicate Continues(s: Text, k: nat) {
    k < |s| && 0x80 <= s[k] < 0xc0
  }

  datatype Read = Read(code: nat, used: nat)

  /** The bits of the next sequence; malformed and overlong ones give a question mark. */
  function RawStep(s: Text): (r: Read)
    requires s != []
    ensures 1 <= r.used <= |s| && r.code <= 0x10ffff
  {
    var b := s[0] as int;
    if b < 0x80 then Read(b, 1)
    else if 0xc0 <= b < 0xe0 && Continues(s, 1) then TwoBytes(b, s[1])
    else if 0xe0 <= b < 0xf0 && Continues(s, 1) && Continues(s, 2) then ThreeBytes(b, s[1], s[2])
    else if 0xf0 <= b < 0xf8 && Continues(s, 1) && Continues(s, 2) && Continues(s, 3) then FourBytes(b, s[1], s[2], s[3])
    else Read(QUESTION, 1)
  }

  function TwoBytes(b: int, c: byte): (r: Read)
    requires 0xc0 <= b < 0xe0 && 0x80 <= c < 0xc0
    ensures r.used == 2 && r.code <= 0x10ffff
  {
    var v := b % 32 * 64 + c as int % 64;
    Read(if v < 0x80 then QUESTION else v, 2)
  }

  function ThreeBytes(b: int, c: byte, d: byte): (r: Read)
    requires 0xe0 <= b < 0xf0 && 0x80 <= c < 0xc0 && 0x80 <= d < 0xc0
    ensures r.used == 3 && r.code <= 0x10ffff
  {
    var v := b % 16 * 4096 + c as int % 64 * 64 + d as int % 64;
    Read(if v < 0x800 then QUESTION else v, 3)
  }

  function FourBytes(b: int, c: byte, d: byte, e: byte): (r: Read)
    requires 0xf0 <= b < 0xf8 && 0x80 <= c < 0xc0 && 0x80 <= d < 0xc0 && 0x80 <= e < 0xc0
    ensures r.used == 4 && r.code <= 0x10ffff
  {
    var v := b % 8 * 0x40000 + c as int % 64 * 4096 + d as int % 64 * 64 + e as int % 64;
    Read(if v < 0x10000 || v > 0x10ffff then QUESTION else v, 4)
  }

  /** Control characters and surrogates are replaced as well. */
  function Step(s: Text): (r: Read)
    requires s != []
    ensures 1 <= r.used <= |s| && IsScalar(r.code) && r.code >= 0x20
  {
    var r := RawStep(s);
    if r.code < 0x20 || 0xd800 <= r.code <= 0xdfff then Read(QUESTION, r.used) else r
  }

  // ---- UTF-16 ----

  type Unit = u: nat | u < 0x10000

  function UnitsOf(c: Scalar): (u: seq<Unit>)
    ensures |u| == if c > 0xffff then 2 else 1
  {
    if c > 0xffff then [0xd800 + (c - 0x10000) / 0x400, 0xdc00 + (c - 0x10000) % 0x400] else [c]
  }

  /** The units written before the text or the room for `room` units ends. */
  function Units(s: Text, room: nat): (u: seq<Unit>)
    ensures |u| <= room
  {
    if s == [] || room == 0 then []
    else
      var r := Step(s);
      var u := UnitsOf(r.code);
      if |u| > room then [] else u + Units(s[r.used..], room - |u|)
  }

  function UnitBytes(units: seq<Unit>): (s: Text)
    ensures |s| == 2 * |units|
  {
    if units == [] then []
    else UnitBytes(units[..|units| - 1]) + UnitPair(units[|units| - 1])
  }

  /** Little-endian. */
  function UnitPair(u: Unit): Text { [u % 256, u / 256] }

  /** The wire form: a count that includes the terminator, the units, and a zero unit. */
  function Encoded(s: Text): (r: Text)
    ensures 1 <= |r| <= 511
  {
    if s == [] then [0]
    else
      var units := Units(s, MAX_UNITS);
      [|units| + 1] + UnitBytes(units) + [0, 0]
  }

  // ---- surrogates are paired ----

  predicate HighUnit(u: nat) { 0xd800 <= u <= 0xdbff }

  predicate LowUnit(u: nat) { 0xdc00 <= u <= 0xdfff }

  function Prepend(c: Scalar, r: Option<seq<Scalar>>): Option<seq<Scalar>> {
    match r case None => None case Some(cs) => Some([c] + cs)
  }

  /** UTF-16 decoding; None for a lone or misplaced surrogate. */
  function DecodeUnits(units: seq<Unit>): Option<seq<Scalar>>
  {
    if units == [] then Some([])
    else if HighUnit(units[0]) then
      if |units| < 2 || !LowUnit(units[1]) then None
      else Prepend(0x10000 + (units[0] as int - 0xd800) * 0x400 + (units[1] as int - 0xdc00), DecodeUnits(units[2..]))
    else if LowUnit(units[0]) then None
    else Prepend(units[0], DecodeUnits(units[1..]))
  }

  lemma {:induction false} PairValue(c: nat)
    requires 0x10000 <= c <= 0x10ffff
    ensures var high, low := 0xd800 + (c - 0x10000) / 0x400, 0xdc00 + (c - 0x10000) % 0x400;
            && HighUnit(high) && LowUnit(low)
            && 0x10000 + (high - 0xd800) * 0x400 + (low - 0xdc00) == c
  {
  }

  lemma {:induction false} DecodePair(high: Unit, low: Unit, c: Scalar, rest: seq<Unit>)
    requires HighUnit(high) && LowUnit(low) && c == 0x10000 + (high as int - 0xd800) * 0x400 + (low as int - 0xdc00)
    ensures DecodeUnits([high, low] + rest) == Prepend(c, DecodeUnits(rest))
  {
    hide Prepend;
    var s := [high, low] + rest;
    assert s[2..] == rest && s[0] == high && s[1] == low;
  }

  lemma {:induction false} DecodeSingle(c: Scalar, rest: seq<Unit>)
    requires c <= 0xffff
    ensures DecodeUnits([c] + rest) == Prepend(c, DecodeUnits(rest))
  {
    var s := [c] + rest;
    assert s[1..] == rest && s[0] == c;
  }

  lemma {:induction false} DecodeOne(c: Scalar, rest: seq<Unit>)
    ensures DecodeUnits(UnitsOf(c) + rest) == Prepend(c, DecodeUnits(rest))
  {
    hide DecodeUnits, Prepend;
    if c > 0xffff {
      PairValue(c);
      DecodePair(0xd800 + (c - 0x10000) / 0x400, 0xdc00 + (c - 0x10000) % 0x400, c, rest);
    } else {
      DecodeSingle(c, rest);
    }
  }

  /** The code points a text is read as, up to where `room` units are used up. */
  function CodePoints(s: Text, room: nat): seq<Scalar> {
    if s == [] || room == 0 then []
    else
      var r := Step(s);
      if |UnitsOf(r.code)| > room then [] else [r.code] + CodePoints(s[r.used..], room - |UnitsOf(r.code)|)
  }

  /** For every input, malformed or not, the units are well-formed UTF-16 of the code points read. */
  lemma {:induction false} UnitsDecode(s: Text, room: nat)
    ensures DecodeUnits(Units(s, room)) == Some(CodePoints(s, room))
  {
    if s != [] && room > 0 {
      var r := Step(s);
      var u := UnitsOf(r.code);
      if |u| <= room {
        UnitsDecode(s[r.used..], room - |u|);
        DecodeOne(r.code, Units(s[r.used..], room - |u|));
      }
    }
  }

  // ---- well-formed text survives ----

  lemma {:induction false} RawTwo(s: Text, c: nat)
    requires 0x80 <= c < 0x800 && |s| >= 2 && s[0] == 0xc0 + c / 0x40 && s[1] == 0x80 + c % 0x40
    ensures RawStep(s) == Read(c, 2)
  {
  }

  lemma {:induction false} RawThree(s: Text, c: nat)
    requires 0x800 <= c < 0x10000 && |s| >= 3
    requires s[0] == 0xe0 + c / 0x1000 && s[1] == 0x80 + c / 0x40 % 0x40 && s[2] == 0x80 + c % 0x40
    ensures RawStep(s) == Read(c, 3)
  {
    ThreeParts(c);
    var d, e, f := c / 0x1000, c / 0x40 % 0x40, c % 0x40;
    assert s[0] as int % 16 == d && s[1] as int % 64 == e && s[2] as int % 64 == f;
  }

  lemma {:induction false} ThreeParts(c: nat)
    requires c < 0x10000
    ensures c == c / 0x1000 * 4096 + c / 0x40 % 0x40 * 64 + c % 0x40 && c / 0x1000 < 16
  {
    var a := c / 0x40;
    assert a / 0x40 == c / 0x1000;
  }

  lemma {:induction false} RawFour(s: Text, c: nat)
    requires 0x10000 <= c <= 0x10ffff && |s| >= 4 && s[0] == 0xf0 + c / 0x40000
    requires s[1] == 0x80 + c / 0x1000 % 0x40 && s[2] == 0x80 + c / 0x40 % 0x40 && s[3] == 0x80 + c % 0x40
    ensures RawStep(s) == Read(c, 4)
  {
    FourParts(c);
    var d, e, f, g := c / 0x40000, c / 0x1000 % 0x40, c / 0x40 % 0x40, c % 0x40;
    assert s[0] as int % 8 == d && s[1] as int % 64 == e && s[2] as int % 64 == f && s[3] as int % 64 == g;
  }

  lemma {:induction false} FourParts(c: nat)
    requires c <= 0x10ffff
    ensures c == c / 0x40000 * 0x40000 + c / 0x1000 % 0x40 * 4096 + c / 0x40 % 0x40 * 64 + c % 0x40
    ensures c / 0x40000 <= 4
  {
    var a := c / 0x40;
    var b := a / 0x40;
    assert b == c / 0x1000 && b / 0x40 == c / 0x40000;
  }

  lemma {:induction false} RawReadsScalar(c: Scalar, rest: Text)
    ensures RawStep(EncodeScalar(c) + rest) == Read(c, |EncodeScalar(c)|)
  {
    hide RawStep;
    var s := EncodeScalar(c) + rest;
    assert forall i :: 0 <= i < |EncodeScalar(c)| ==> s[i] == EncodeScalar(c)[i];
    if c < 0x80 {
      RawOne(s, c);
    } else if c < 0x800 {
      RawTwo(s, c);
    } else if c < 0x10000 {
      RawThree(s, c);
    } else {
      RawFour(s, c);
    }
  }

  lemma {:induction false} RawOne(s: Text, c: nat)
    requires s != [] && s[0] == c < 0x80
    ensures RawStep(s) == Read(c, 1)
  {
  }

  lemma {:induction false} StepReadsScalar(c: Scalar, rest: Text)
    requires c >= 0x20
    ensures Step(EncodeScalar(c) + rest) == Read(c, |EncodeScalar(c)|)
  {
    hide RawStep, EncodeScalar;
    RawReadsScalar(c, rest);
  }

  lemma {:induction false} TwoBytesBack(b: int, c: byte)
    requires 0xc0 <= b < 0xe0 && 0x80 <= c < 0xc0 && TwoBytes(b, c).code != QUESTION
    ensures EncodeScalar(TwoBytes(b, c).code) == [b, c]
  {
    var v := b % 32 * 64 + c as int % 64;
    assert v / 64 == b % 32 && v % 64 == c as int % 64;
  }

  lemma {:induction false} ThreeBytesBack(b: int, c: byte, d: byte)
    requires 0xe0 <= b < 0xf0 && 0x80 <= c < 0xc0 && 0x80 <= d < 0xc0
    requires ThreeBytes(b, c, d).code != QUESTION && IsScalar(ThreeBytes(b, c, d).code)
    ensures EncodeScalar(ThreeBytes(b, c, d).code) == [b, c, d]
  {
    var x, y, z := b % 16, c as int % 64, d as int % 64;
    var v := x * 4096 + y * 64 + z;
    assert v / 64 == x * 64 + y && v % 64 == z;
    assert v / 4096 == x && v / 64 % 64 == y;
  }

  lemma {:induction false} FourBytesBack(b: int, c: byte, d: byte, e: byte)
    requires 0xf0 <= b < 0xf8 && 0x80 <= c < 0xc0 && 0x80 <= d < 0xc0 && 0x80 <= e < 0xc0
    requires FourBytes(b, c, d, e).code != QUESTION
    ensures EncodeScalar(FourBytes(b, c, d, e).code) == [b, c, d, e]
  {
    QuotientsOf(b % 8, c as int % 64, d as int % 64, e as int % 64);
  }

  lemma {:induction false} QuotientsOf(x: nat, y: nat, z: nat, w: nat)
    requires y < 64 && z < 64 && w < 64
    ensures var v := x * 0x40000 + y * 4096 + z * 64 + w;
            v / 0x40000 == x && v / 4096 % 64 == y && v / 64 % 64 == z && v % 64 == w
  {
    var v, g, h := x * 0x40000 + y * 4096 + z * 64 + w, x * 64 + y, x * 4096 + y * 64 + z;
    assert v == h * 64 + w && h == g * 64 + z;
    assert v / 64 == h && h / 64 == g && g / 64 == x;
  }

  /** Whatever is not shown as a question mark stood in the text as the UTF-8 form of that code point. */
  lemma {:induction false} StepIsFaithful(s: Text)
    requires s != [] && Step(s).code != QUESTION
    ensures s[..Step(s).used] == EncodeScalar(Step(s).code)
  {
    hide EncodeScalar, TwoBytes, ThreeBytes, FourBytes;
    var b, r := s[0] as int, RawStep(s);
    assert Step(s) == r;
    if b < 0x80 {
      assert s[..1] == [s[0]];
    } else if 0xc0 <= b < 0xe0 && Continues(s, 1) {
      TwoBytesBack(b, s[1]);
      assert s[..2] == [s[0], s[1]];
    } else if 0xe0 <= b < 0xf0 {
      ThreeBytesBack(b, s[1], s[2]);
      assert s[..3] == [s[0], s[1], s[2]];
    } else {
      FourBytesBack(b, s[1], s[2], s[3]);
      assert s[..4] == [s[0], s[1], s[2], s[3]];
    }
  }

  function UnitCount(cs: seq<Scalar>): nat {
    if cs == [] then 0 else |UnitsOf(cs[0])| + UnitCount(cs[1..])
  }

  lemma {:induction false} CodePointsOfEncoded(cs: seq<Scalar>, room: nat)
    requires forall i :: 0 <= i < |cs| ==> cs[i] >= 0x20
    requires UnitCount(cs) <= room
    ensures CodePoints(Encode(cs), room) == cs
  {
    hide EncodeScalar, Step, UnitsOf;
    if cs != [] {
      var e := EncodeScalar(cs[0]);
      var s := e + Encode(cs[1..]);
      StepReadsScalar(cs[0], Encode(cs[1..]));
      assert s[|e|..] == Encode(cs[1..]);
      CodePointsOfEncoded(cs[1..], room - |UnitsOf(cs[0])|);
      assert cs == [cs[0]] + cs[1..];
    }
  }

  /** Well-formed UTF-8 without control characters that fits 254 units decodes to the same text. */
  lemma {:induction false} StringRoundTrip(cs: seq<Scalar>)
    requires forall i :: 0 <= i < |cs| ==> cs[i] >= 0x20
    requires UnitCount(cs) <= MAX_UNITS
    ensures DecodeUnits(Units(Encode(cs), MAX_UNITS)) == Some(cs)
  {
    UnitsDecode(Encode(cs), MAX_UNITS);
    CodePointsOfEncoded(cs, MAX_UNITS);
  }

  // ---- the writer ----

  lemma {:induction false} UnitBytesAppend(units: seq<Unit>, u: Unit)
    ensures UnitBytes(units + [u]) == UnitBytes(units) + UnitPair(u)
  {
    assert (units + [u])[..|units|] == units;
  }

  /** The bytes of one code point's units. */
  function ShortBytes(u: seq<Unit>): Text
    requires 1 <= |u| <= 2
  {
    if |u| == 2 then UnitPair(u[0]) + UnitPair(u[1]) else UnitPair(u[0])
  }

  lemma {:induction false} UnitBytesOne(done: seq<Unit>, u: seq<Unit>)
    requires |u| == 1
    ensures UnitBytes(done + u) == UnitBytes(done) + ShortBytes(u)
  {
    hide UnitBytes, UnitPair;
    assert u == [u[0]];
    UnitBytesAppend(done, u[0]);
  }

  lemma {:induction false} UnitBytesTwo(done: seq<Unit>, u: seq<Unit>)
    requires |u| == 2
    ensures UnitBytes(done + u) == UnitBytes(done) + ShortBytes(u)
  {
    hide UnitBytes, UnitPair;
    UnitBytesAppend(done, u[0]);
    UnitBytesAppend(done + [u[0]], u[1]);
    assert done + u == done + [u[0]] + [u[1]];
    assert UnitBytes(done) + UnitPair(u[0]) + UnitPair(u[1]) == UnitBytes(done) + (UnitPair(u[0]) + UnitPair(u[1]));
  }

  lemma {:induction false} UnitBytesConcat(done: seq<Unit>, u: seq<Unit>)
    requires 1 <= |u| <= 2
    ensures UnitBytes(done + u) == UnitBytes(done) + ShortBytes(u)
  {
    hide *;
    if |u| == 2 { UnitBytesTwo(done, u); } else { UnitBytesOne(done, u); }
  }

  /** `done` are the units of the first `p` bytes of `s`; the rest follows from there. */
  ghost predicate Reading(s: Text, p: nat, done: seq<Unit>) {
    && p <= |s| && |done| <= MAX_UNITS
    && Units(s, MAX_UNITS) == done + Units(s[p..], MAX_UNITS - |done|)
  }

  lemma {:induction false} ReadingStarts(s: Text)
    ensures Reading(s, 0, [])
  {
    hide Units;
    assert s[0..] == s;
    assert [] + Units(s, MAX_UNITS) == Units(s, MAX_UNITS);
  }

  lemma {:induction false} NoUnits()
    ensures UnitBytes([]) == []
  {
  }

  lemma {:induction false} ReadingEnds(s: Text, p: nat, done: seq<Unit>)
    requires Reading(s, p, done) && (p == |s| || |done| == MAX_UNITS)
    ensures Units(s, MAX_UNITS) == done
  {
    hide Step, UnitsOf;
    assert Units(s[p..], MAX_UNITS - |done|) == [];
  }

  lemma {:induction false} UnitsStep(s: Text, room: nat)
    requires s != [] && room > 0
    ensures var r := Step(s);
            var u := UnitsOf(r.code);
            Units(s, room) == if |u| > room then [] else u + Units(s[r.used..], room - |u|)
  {
    hide Step, UnitsOf;
  }

  /** Either the next code point no longer fits and the reading is over, or it goes on behind it. */
  lemma {:induction false} ReadingGoesOn(s: Text, p: nat, done: seq<Unit>)
    requires Reading(s, p, done) && p < |s| && |done| < MAX_UNITS
    ensures var r := Step(s[p..]);
            var u := UnitsOf(r.code);
            if |done| + |u| > MAX_UNITS then Units(s, MAX_UNITS) == done
            else Reading(s, p + r.used, done + u) && |done| + |u| <= |Units(s, MAX_UNITS)|
  {
    hide Step, UnitsOf, Units;
    var r := Step(s[p..]);
    var u := UnitsOf(r.code);
    UnitsStep(s[p..], MAX_UNITS - |done|);
    if |done| + |u| <= MAX_UNITS {
      assert s[p..][r.used..] == s[p + r.used..];
      var rest := Units(s[p + r.used..], MAX_UNITS - |done| - |u|);
      assert done + (u + rest) == done + u + rest;
    }
  }

  lemma {:induction false} EncodedNonEmpty(s: Text)
    requires s != []
    ensures var units := Units(s, MAX_UNITS);
            Encoded(s) == [|units| + 1] + UnitBytes(units) + [0, 0] && |Encoded(s)| == 3 + 2 * |units|
  {
    hide Units, UnitBytes;
  }

  // ---- reading the string in memory ----

  /** `memory` is a C string and its terminator, with nothing behind it. */
  ghost predicate Terminates(memory: Text, text: Text) {
    memory == text + [0] && 0 !in text
  }

  lemma {:induction false} TerminatedSize(memory: Text, text: Text)
    requires Terminates(memory, text)
    ensures |memory| == |text| + 1
  {
  }

  /** Where the memory holds no zero, the terminator is still ahead. */
  lemma {:induction false} NotAtEnd(memory: Text, text: Text, p: nat)
    requires Terminates(memory, text) && p < |memory| && memory[p] != 0
    ensures p < |text|
  {
  }

  lemma {:induction false} AtEnd(memory: Text, text: Text, p: nat)
    requires Terminates(memory, text) && p < |memory|
    ensures memory[p] == 0 <==> p == |text|
  {
    if p < |text| { assert text[p] in text; }
  }

  /** Behind p the memory continues the text exactly as the terminator lets the tests go on. */
  lemma {:induction false} Ahead(memory: Text, text: Text, p: nat, k: nat)
    requires Terminates(memory, text) && p + k <= |text|
    ensures memory[p + k] != 0 <==> p + k < |text|
    ensures (0x80 <= memory[p + k] < 0xc0) == Continues(text[p..], k)
  {
    AtEnd(memory, text, p + k);
  }

  predicate Trails(b: byte) { 0x80 <= b < 0xc0 }

  /** The bits of the next sequence, with the tests in the order of the source. */
  method ReadBits(memory: Text, p: nat, ghost text: Text) returns (r: Read)
    requires Terminates(memory, text) && p < |text|
    ensures r == RawStep(text[p..])
  {
    var b := memory[p] as int;
    assert text[p..][0] == memory[p];
    Ahead(memory, text, p, 1);
    if b < 0x80 {
      r := Read(b, 1);
    } else if 0xc0 <= b < 0xe0 && memory[p + 1] != 0 && Trails(memory[p + 1]) {
      r := TwoBytes(b, memory[p + 1]);
    } else if 0xe0 <= b < 0xf0 && memory[p + 1] != 0 && memory[p + 2] != 0
           && Trails(memory[p + 1]) && Trails(memory[p + 2]) {
      Ahead(memory, text, p, 2);
      r := ThreeBytes(b, memory[p + 1], memory[p + 2]);
    } else if 0xf0 <= b < 0xf8 && memory[p + 1] != 0 && memory[p + 2] != 0 && memory[p + 3] != 0
           && Trails(memory[p + 1]) && Trails(memory[p + 2]) && Trails(memory[p + 3]) {
      r := FourBytes(b, memory[p + 1], memory[p + 2], memory[p + 3]);
    } else {
      r := Read(QUESTION, 1);
    }
  }

  method ReadPoint(memory: Text, p: nat, ghost text: Text) returns (r: Read)
    requires Terminates(memory, text) && p < |text|
    ensures r == Step(text[p..])
  {
    hide RawStep;
    r := ReadBits(memory, p, text);
    if r.code < 0x20 || 0xd800 <= r.code <= 0xdfff { r := Read(QUESTION, r.used); }
  }

  /** An output buffer with a sticky error, as in the source. */
  class Writer {
    const data: array<byte>
    const capacity: nat
    var length: nat
    var error: bool

    ghost predicate Valid()
      reads this
    {
      length <= capacity <= data.Length
    }

    /** The buffer holds `log`, or `log` did not fit and the error is set. */
    ghost predicate Carries(log: Text)
      reads this, data
    {
      Valid() && error == (|log| > capacity) && (!error ==> Written() == log)
    }

    /** Appends `bytes` to what was written so far. */
    method Append(bytes: Text, ghost log: Text)
      requires Carries(log)
      modifies this`length, this`error, data
      ensures Carries(log + bytes)
    {
      Emit(bytes);
    }

    /** Appends a counted string. */
    method AppendString(utf8: Text, ghost log: Text)
      requires Carries(log) && 0 !in utf8
      modifies this`length, this`error, data
      ensures Carries(log + Encoded(utf8))
    {
      hide Encoded;
      String(utf8);
    }

    ghost function Written(): Text
      requires Valid()
      reads this, data
    {
      data[..length]
    }

    constructor (data: array<byte>, capacity: nat)
      requires capacity <= data.Length
      ensures Valid() && this.data == data && this.capacity == capacity && length == 0 && !error
    {
      this.data, this.capacity, length, error := data, capacity, 0, false;
    }

    /** Appends if there is room, and otherwise only fails. Nothing beyond the new length changes. */
    method Emit(source: Text)
      requires Valid()
      modifies this`length, this`error, data
      ensures Valid()
      ensures var fits := !old(error) && old(length) + |source| <= capacity;
              && error == !fits
              && (fits ==> Written() == old(Written()) + source)
              && (!fits ==> length == old(length) && data[..] == old(data[..]))
      ensures data[length..] == old(data[..])[length..]
    {
      if error || |source| > capacity - length {
        error := true;
        return;
      }
      ghost var start := length;
      ghost var before := data[..];
      for i := 0 to |source|
        invariant length == start + i && !error
        invariant data[..length] == before[..start] + source[..i]
        invariant data[length..] == before[length..]
      {
        ghost var front, back := data[..length], data[length..];
        data[length] := source[i];
        assert data[..length + 1] == front + [source[i]] && data[length + 1..] == back[1..];
        assert source[..i + 1] == source[..i] + [source[i]] && before[length..][1..] == before[length + 1..];
        length := length + 1;
      }
    }

    method U16(value: Unit)
      requires Valid()
      modifies this`length, this`error, data
      ensures Valid()
      ensures var fits := !old(error) && old(length) + 2 <= capacity;
              && error == !fits
              && (fits ==> Written() == old(Written()) + UnitPair(value))
      ensures data[length..] == old(data[..])[length..] && old(length) <= length
    {
      ghost var before := data[..];
      Emit([value % 256]);
      ghost var middle := data[..];
      Emit([value / 256]);
      assert data[length..] == middle[length..];
      assert forall i :: length <= i < data.Length ==> middle[i] == before[i];
    }

    /** One code point as one or two units. */
    method WriteScalar(c: Scalar)
      requires Valid() && !error && length + 2 * |UnitsOf(c)| <= capacity
      modifies this`length, this`error, data
      ensures Valid() && !error && Written() == old(Written()) + ShortBytes(UnitsOf(c))
      ensures data[capacity..] == old(data[capacity..])
    {
      ghost var before := data[..];
      var u := UnitsOf(c);
      U16(u[0]);
      ghost var middle := data[..];
      assert middle[capacity..] == before[capacity..] by {
        assert middle[capacity..] == middle[length..][capacity - length..];
      }
      if |u| == 2 {
        U16(u[1]);
        assert data[capacity..] == data[length..][capacity - length..];
      }
    }

    /**
      The units of the code points of the string in `memory`; false when the room ran out. The memory
      ends with the terminator, so every read is proved to stay at or before it.
     */
    method WriteUnits(memory: Text, ghost utf8: Text) returns (units: nat, ok: bool)
      requires Valid() && !error && Terminates(memory, utf8)
      modifies this`length, this`error, data
      ensures Valid() && !error
      ensures var all := Units(utf8, MAX_UNITS);
              && ok == (old(length) + 2 * |all| <= capacity)
              && (ok ==> units == |all| && Written() == old(Written()) + UnitBytes(all))
      ensures data[capacity..] == old(data[capacity..])
    {
      hide Step, UnitsOf, Units, UnitBytes, Reading, ShortBytes, Terminates;
      ghost var done: seq<Unit> := [];
      var p := 0;
      units := 0;
      ReadingStarts(utf8);
      NoUnits();
      TerminatedSize(memory, utf8);
      while memory[p] != 0 && units < MAX_UNITS
        invariant length <= capacity <= data.Length && !error && 0 <= p <= |utf8| && units == |done| <= MAX_UNITS
        invariant Reading(utf8, p, done)
        invariant data[..length] == old(data[..length]) + UnitBytes(done)
        invariant data[capacity..] == old(data[capacity..])
        decreases |utf8| - p
      {
        NotAtEnd(memory, utf8, p);
        var r := ReadPoint(memory, p, utf8);
        var u := UnitsOf(r.code);
        ReadingGoesOn(utf8, p, done);
        p := p + r.used;
        if r.code > 0xffff && units + 2 > MAX_UNITS {
          return units, true;
        }
        if capacity - length < 2 * |u| {
          return units, false;
        }
        UnitBytesConcat(done, u);
        WriteScalar(r.code);
        done := done + u;
        units := units + |u|;
      }
      AtEnd(memory, utf8, p);
      ReadingEnds(utf8, p, done);
      ok := true;
    }

    /** Makes room for one byte at `start` by moving everything behind it. */
    method ShiftRight(start: nat)
      requires Valid() && start <= length < capacity
      modifies data
      ensures data[..start] == old(data[..start]) && data[start + 1..length + 1] == old(data[start..length])
      ensures data[capacity..] == old(data[capacity..])
    {
      var i := length;
      while i > start
        invariant start <= i <= length
        invariant data[..i] == old(data[..i]) && data[i + 1..length + 1] == old(data[i..length])
        invariant data[capacity..] == old(data[capacity..])
      {
        data[i] := data[i - 1];
        i := i - 1;
      }
    }

    /**
      Writes the counted string in place, or fails exactly when it does not fit. It never touches a
      byte behind the capacity.
     */
    method String(utf8: Text)
      requires Valid() && 0 !in utf8
      modifies this`length, this`error, data
      ensures Valid()
      ensures var fits := !old(error) && old(length) + |Encoded(utf8)| <= capacity;
              error == !fits && (fits ==> Written() == old(Written()) + Encoded(utf8))
      ensures data[capacity..] == old(data[capacity..])
    {
      if utf8 == [] {
        ghost var before := data[..];
        Emit([0]);
        assert data[capacity..] == data[length..][capacity - length..] == before[capacity..];
        return;
      }
      if error { return; }
      EncodedNonEmpty(utf8);
      hide Encoded, UnitBytes, Units;
      var start := length;
      ghost var before := data[..length];
      ghost var all := Units(utf8, MAX_UNITS);
      var units, ok := WriteUnits(utf8 + [0], utf8);
      if !ok || capacity - length < 3 {
        error := true;
        return;
      }
      Frame(start, units, before, all);
    }

    /** The count in front and the terminator behind. */
    method Frame(start: nat, units: nat, ghost before: Text, ghost all: seq<Unit>)
      requires Valid() && !error && start <= length && length + 3 <= capacity
      requires units == |all| <= MAX_UNITS && Written() == before + UnitBytes(all) && |before| == start
      modifies this`length, this`error, data
      ensures Valid() && !error && Written() == before + ([units + 1] + UnitBytes(all) + [0, 0])
      ensures data[capacity..] == old(data[capacity..])
    {
      hide UnitBytes;
      ghost var body := UnitBytes(all);
      ghost var outside := data[capacity..];
      assert data[..start] == before && data[start..length] == body by {
        assert data[..start] == data[..length][..start];
        assert data[start..length] == data[..length][start..];
      }
      PrependCount(start, units + 1);
      ghost var last := data[..];
      assert data[..length] == before + [units + 1] + body;
      U16(0);
      assert data[capacity..] == data[length..][capacity - length..] == last[capacity..];
      assert data[..length] == before + [units + 1] + body + [0, 0];
    }

    /** Moves the payload from `start` on by one and puts its count in front. */
    method PrependCount(start: nat, count: byte)
      requires Valid() && start <= length < capacity
      modifies this`length, data
      ensures Valid() && length == old(length) + 1
      ensures Written() == old(data[..start]) + [count] + old(data[start..length])
      ensures data[capacity..] == old(data[capacity..])
    {
      ShiftRight(start);
      data[start] := count;
      length := length + 1;
    }
  }
}
