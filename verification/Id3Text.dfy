/**
  Text frames of an ID3v2.3 tag (sections 3.3 and 4.2 of ID3v2.3.0): `append_utf8`, `decode_text` and
  `parse_track` in src/vita/id3_tags.c.
 */
module Id3Text {
  import opened Bytes
  import opened Utf8

  // ---- code points of a payload ----

  /** ISO-8859-1 up to the first zero. */
  function Latin1(p: Text, i: nat): seq<Scalar>
    decreases |p| - i
  {
    if i >= |p| || p[i] == 0 then [] else [p[i]] + Latin1(p, i + 1)
  }

  function Unit(p: Text, i: nat, little: bool): (u: nat)
    requires i + 1 < |p|
    ensures u < 0x1_0000
  {
    if little then p[i] as int + 256 * p[i + 1] as int else 256 * p[i] as int + p[i + 1] as int
  }

  function Cons(c: Scalar, rest: Option<seq<Scalar>>): Option<seq<Scalar>> {
    match rest case None => None case Some(cs) => Some([c] + cs)
  }

  function PairValue(high: nat, low: nat): (c: Scalar)
    requires 0xd800 <= high <= 0xdbff && 0xdc00 <= low <= 0xdfff
    ensures c >= 0x10000
  {
    0x10000 + (high - 0xd800) * 0x400 + (low - 0xdc00)
  }

  /** UTF-16 up to the first zero unit; None for a lone surrogate. An odd byte at the end is ignored. */
  function Utf16(p: Text, i: nat, little: bool): Option<seq<Scalar>>
    decreases |p| - i
  {
    if i + 1 >= |p| then Some([])
    else
      var u := Unit(p, i, little);
      if u == 0 then Some([])
      else if 0xd800 <= u <= 0xdbff then
        if i + 3 >= |p| then None
        else
          var low := Unit(p, i + 2, little);
          if low < 0xdc00 || low > 0xdfff then None else Cons(PairValue(u, low), Utf16(p, i + 4, little))
      else if 0xdc00 <= u <= 0xdfff then None
      else Cons(u, Utf16(p, i + 2, little))
  }

  function Points(p: Text): Option<seq<Scalar>> {
    if |p| < 2 then None
    else if p[0] == 0 then Some(Latin1(p, 1))
    else if p[0] != 1 || |p| < 5 then None
    else if p[1] == 0xff && p[2] == 0xfe then Utf16(p, 3, true)
    else if p[1] == 0xfe && p[2] == 0xff then Utf16(p, 3, false)
    else None
  }

  /** The UTF-8 text of a frame, which must not be empty and must fit with its terminator. */
  function FrameText(p: Text, capacity: nat): Option<Text> {
    match Points(p)
    case None => None
    case Some(cs) => if cs != [] && |Encode(cs)| < capacity then Some(Encode(cs)) else None
  }

  // ---- the decoding loops ----

  lemma {:induction false} EncodeConcat(a: seq<Scalar>, b: seq<Scalar>)
    ensures Encode(a + b) == Encode(a) + Encode(b)
  {
    hide EncodeScalar;
    if a == [] {
      assert a + b == b;
    } else {
      EncodeConcat(a[1..], b);
      assert (a + b)[1..] == a[1..] + b && (a + b)[0] == a[0];
    }
  }

  lemma {:induction false} EncodeOne(c: Scalar)
    ensures Encode([c]) == EncodeScalar(c)
  {
    hide EncodeScalar;
    assert [c][1..] == [];
  }

  lemma {:induction false} EncodeMore(done: seq<Scalar>, c: Scalar)
    ensures Encode(done + [c]) == Encode(done) + EncodeScalar(c)
  {
    hide EncodeScalar, Encode;
    EncodeConcat(done, [c]);
    EncodeOne(c);
  }

  method PutBytes(out: array<byte>, used: nat, bytes: Text)
    requires used + |bytes| < out.Length
    modifies out
    ensures out[..used + |bytes|] == old(out[..used]) + bytes && out[used + |bytes|] == 0
  {
    for i := 0 to |bytes|
      invariant out[..used + i] == old(out[..used]) + bytes[..i]
    {
      out[used + i] := bytes[i];
    }
    out[used + |bytes|] := 0;
  }

  /** Appends one code point, unless it is zero, a surrogate, or does not fit. */
  method AppendUtf8(out: array<byte>, used: nat, code: nat) returns (ok: bool, used': nat)
    requires used < out.Length && code < 0x11_0000
    modifies out
    ensures ok == (code != 0 && IsScalar(code) && used + |EncodeScalar(code)| < out.Length)
    ensures ok ==> used' == used + |EncodeScalar(code)| < out.Length
    ensures ok ==> out[..used'] == old(out[..used]) + EncodeScalar(code) && out[used'] == 0
  {
    hide EncodeScalar;
    used' := used;
    if code == 0 || !IsScalar(code) { return false, used; }
    var bytes := EncodeScalar(code);
    if used + |bytes| >= out.Length { return false, used; }
    PutBytes(out, used, bytes);
    ok, used' := true, used + |bytes|;
  }

  /** `done` was read, `rest` is still to come. */
  ghost predicate Split(all: Option<seq<Scalar>>, done: seq<Scalar>, rest: Option<seq<Scalar>>) {
    all == match rest case None => None case Some(cs) => Some(done + cs)
  }

  lemma {:induction false} SplitMoves(all: Option<seq<Scalar>>, done: seq<Scalar>, c: Scalar, rest: Option<seq<Scalar>>)
    requires Split(all, done, Cons(c, rest))
    ensures Split(all, done + [c], rest)
  {
    if rest.Some? { assert done + ([c] + rest.value) == done + [c] + rest.value; }
  }

  /** Once a prefix does not fit, the whole does not. */
  lemma {:induction false} TooLong(p: Text, capacity: nat, done: seq<Scalar>, c: Scalar, rest: Option<seq<Scalar>>)
    requires Split(Points(p), done, Cons(c, rest)) && |Encode(done)| + |EncodeScalar(c)| >= capacity
    ensures FrameText(p, capacity).None?
  {
    hide Points, EncodeScalar, Encode;
    SplitMoves(Points(p), done, c, rest);
    EncodeMore(done, c);
    if rest.Some? {
      EncodeConcat(done + [c], rest.value);
    }
  }

  lemma {:induction false} Complete(p: Text, capacity: nat, done: seq<Scalar>)
    requires Split(Points(p), done, Some([])) && |Encode(done)| < capacity
    ensures FrameText(p, capacity) == if done != [] then Some(Encode(done)) else None
  {
    hide Points, Encode;
    assert done + [] == done;
  }

  lemma {:induction false} EncodedSize(done: seq<Scalar>)
    ensures |Encode(done)| == 0 <==> done == []
  {
    hide EncodeScalar;
  }

  lemma {:induction false} Latin1Step(p: Text, i: nat)
    ensures Some(Latin1(p, i)) == if i >= |p| || p[i] == 0 then Some([]) else Cons(p[i], Some(Latin1(p, i + 1)))
  {
  }

  /** The shared state of both loops. */
  ghost predicate Decoding(p: Text, out: array<byte>, used: nat, done: seq<Scalar>, rest: Option<seq<Scalar>>)
    reads out
  {
    used < out.Length && Split(Points(p), done, rest) && out[..used] == Encode(done)
  }

  /** Appends the next code point of the payload. */
  method Advance(p: Text, out: array<byte>, used: nat, c: Scalar, ghost done: seq<Scalar>, ghost rest: Option<seq<Scalar>>)
    returns (ok: bool, used': nat)
    requires c != 0 && Decoding(p, out, used, done, Cons(c, rest))
    modifies out
    ensures ok ==> used' < out.Length && out[used'] == 0 && Decoding(p, out, used', done + [c], rest)
    ensures !ok ==> FrameText(p, out.Length).None?
  {
    hide Points, EncodeScalar, Encode, FrameText;
    ok, used' := AppendUtf8(out, used, c);
    assert |Encode(done)| == used;
    if ok {
      SplitMoves(Points(p), done, c, rest);
      EncodeMore(done, c);
    } else {
      TooLong(p, out.Length, done, c, rest);
    }
  }

  method DecodeLatin1(p: Text, out: array<byte>) returns (ok: bool, used: nat)
    requires |p| >= 2 && p[0] == 0 && out.Length >= 2
    modifies out
    ensures ok == FrameText(p, out.Length).Some?
    ensures ok ==> used < out.Length && out[used] == 0 && out[..used] == FrameText(p, out.Length).value
  {
    ghost var done: seq<Scalar> := [];
    out[0] := 0;
    used := 0;
    var i := 1;
    Begins(p, out, Some(Latin1(p, 1)));
    hide Points, EncodeScalar, Encode, FrameText, Latin1, Decoding;
    while i < |p| && p[i] != 0
      invariant 1 <= i <= |p| && used < out.Length && out[used] == 0
      invariant Decoding(p, out, used, done, Some(Latin1(p, i)))
    {
      Latin1Step(p, i);
      ok, used := Advance(p, out, used, p[i], done, Some(Latin1(p, i + 1)));
      if !ok { return; }
      done := done + [p[i] as Scalar];
      i := i + 1;
    }
    Latin1Step(p, i);
    Ends(p, out, used, done);
    ok := used > 0;
  }

  lemma {:induction false} Begins(p: Text, out: array<byte>, rest: Option<seq<Scalar>>)
    requires out.Length >= 2 && Points(p) == rest
    ensures Decoding(p, out, 0, [], rest)
  {
    hide Points;
    if rest.Some? { assert [] + rest.value == rest.value; }
  }

  lemma {:induction false} Ends(p: Text, out: array<byte>, used: nat, done: seq<Scalar>)
    requires Decoding(p, out, used, done, Some([]))
    ensures FrameText(p, out.Length) == if used > 0 then Some(out[..used]) else None
  {
    hide Points, Encode, FrameText;
    assert |Encode(done)| == used;
    EncodedSize(done);
    Complete(p, out.Length, done);
  }

  lemma {:induction false} Utf16Step(p: Text, i: nat, little: bool)
    ensures Utf16(p, i, little) ==
      if i + 1 >= |p| || Unit(p, i, little) == 0 then Some([])
      else
        var u := Unit(p, i, little);
        if 0xd800 <= u <= 0xdbff then
          if i + 3 >= |p| || !(0xdc00 <= Unit(p, i + 2, little) <= 0xdfff) then None
          else Cons(PairValue(u, Unit(p, i + 2, little)), Utf16(p, i + 4, little))
        else if 0xdc00 <= u <= 0xdfff then None
        else Cons(u, Utf16(p, i + 2, little))
  {
    hide Unit, PairValue, Cons;
  }

  lemma {:induction false} NoPoints(p: Text, out: array<byte>, used: nat, done: seq<Scalar>)
    requires Decoding(p, out, used, done, None)
    ensures FrameText(p, out.Length).None?
  {
  }

  method DecodeUtf16(p: Text, out: array<byte>, little: bool) returns (ok: bool, used: nat)
    requires |p| >= 5 && p[0] == 1 && out.Length >= 2 && Points(p) == Utf16(p, 3, little)
    modifies out
    ensures ok == FrameText(p, out.Length).Some?
    ensures ok ==> used < out.Length && out[used] == 0 && out[..used] == FrameText(p, out.Length).value
  {
    hide Points, EncodeScalar, Encode, FrameText, Utf16, Decoding, Unit, PairValue;
    ghost var done: seq<Scalar> := [];
    out[0] := 0;
    used := 0;
    var i := 3;
    Begins(p, out, Utf16(p, 3, little));
    while i + 1 < |p|
      invariant 3 <= i && used < out.Length && out[used] == 0
      invariant Decoding(p, out, used, done, Utf16(p, i, little))
      decreases |p| - i
    {
      Utf16Step(p, i, little);
      var code := Unit(p, i, little);
      if code == 0 { break; }
      var width := 2;
      if 0xd800 <= code <= 0xdbff {
        if i + 3 >= |p| { NoPoints(p, out, used, done); return false, used; }
        var low := Unit(p, i + 2, little);
        if low < 0xdc00 || low > 0xdfff { NoPoints(p, out, used, done); return false, used; }
        code, width := PairValue(code, low), 4;
      } else if 0xdc00 <= code <= 0xdfff {
        NoPoints(p, out, used, done);
        return false, used;
      }
      ok, used := Advance(p, out, used, code, done, Utf16(p, i + width, little));
      if !ok { return; }
      done := done + [code as Scalar];
      i := i + width;
    }
    Utf16Step(p, i, little);
    Ends(p, out, used, done);
    ok := used > 0;
  }

  /** Decodes a text frame into a buffer: exactly the frame's text, or a failure. */
  method DecodeText(p: Text, out: array<byte>) returns (ok: bool, used: nat)
    requires out.Length >= 2
    modifies out
    ensures ok == FrameText(p, out.Length).Some?
    ensures ok ==> used < out.Length && out[used] == 0 && out[..used] == FrameText(p, out.Length).value
  {
    hide Encode, Latin1, Utf16;
    if |p| < 2 { return false, 0; }
    if p[0] == 0 {
      ok, used := DecodeLatin1(p, out);
      return;
    }
    if p[0] != 1 || |p| < 5 { return false, 0; }
    if p[1] == 0xff && p[2] == 0xfe {
      ok, used := DecodeUtf16(p, out, true);
    } else if p[1] == 0xfe && p[2] == 0xff {
      ok, used := DecodeUtf16(p, out, false);
    } else {
      return false, 0;
    }
  }

  // ---- the reader inverts a writer ----

  /** Little-endian UTF-16 of one code point. */
  function LePoint(c: Scalar): (s: Text)
    ensures |s| == if c < 0x10000 then 2 else 4
  {
    if c < 0x10000 then [c % 256, c / 256]
    else
      var high, low := 0xd800 + (c - 0x10000) / 0x400, 0xdc00 + (c - 0x10000) % 0x400;
      [high % 256, high / 256, low % 256, low / 256]
  }

  function LeText(cs: seq<Scalar>): (s: Text)
    ensures cs != [] ==> |s| >= 2
  {
    if cs == [] then [] else LePoint(cs[0]) + LeText(cs[1..])
  }

  lemma {:induction false} LePointReads(p: Text, i: nat, c: Scalar, n: nat)
    requires c != 0 && n == |LePoint(c)| && i + n <= |p| && p[i..i + n] == LePoint(c)
    ensures Utf16(p, i, true) == Cons(c, Utf16(p, i + n, true))
  {
    var b := p[i..i + n];
    assert b[0] == p[i] && b[1] == p[i + 1];
    if c < 0x10000 {
      assert Unit(p, i, true) == c;
    } else {
      assert b[2] == p[i + 2] && b[3] == p[i + 3];
      assert Unit(p, i, true) == 0xd800 + (c - 0x10000) / 0x400;
      assert Unit(p, i + 2, true) == 0xdc00 + (c - 0x10000) % 0x400;
      assert PairValue(Unit(p, i, true), Unit(p, i + 2, true)) == c;
    }
    hide Utf16, Cons;
    Utf16Step(p, i, true);
  }

  lemma {:induction false} LeTextReads(p: Text, i: nat, cs: seq<Scalar>)
    requires i <= |p| && p[i..] == LeText(cs) && forall k :: 0 <= k < |cs| ==> cs[k] != 0
    ensures Utf16(p, i, true) == Some(cs)
    decreases |cs|
  {
    hide LePoint;
    if cs == [] {
      assert i == |p|;
    } else {
      var n := |LePoint(cs[0])|;
      assert p[i..][..n] == LePoint(cs[0]) && p[i..][n..] == LeText(cs[1..]);
      assert p[i..i + n] == p[i..][..n] && p[i + n..] == p[i..][n..];
      hide Utf16;
      LePointReads(p, i, cs[0], n);
      LeTextReads(p, i + n, cs[1..]);
      assert cs == [cs[0]] + cs[1..];
    }
  }

  /** A UTF-16 frame written for any non-empty text without zeros decodes to that text in UTF-8. */
  lemma {:induction false} Utf16RoundTrip(cs: seq<Scalar>, capacity: nat)
    requires cs != [] && |Encode(cs)| < capacity && forall k :: 0 <= k < |cs| ==> cs[k] != 0
    ensures FrameText([1, 0xff, 0xfe] + LeText(cs), capacity) == Some(Encode(cs))
  {
    hide Utf16, LeText, Encode;
    var p := [1, 0xff, 0xfe] + LeText(cs);
    assert p[3..] == LeText(cs);
    LeTextReads(p, 3, cs);
  }
}
