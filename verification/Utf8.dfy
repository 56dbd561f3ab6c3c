/** Unicode scalar values and their UTF-8 form (section 3 of RFC 3629). */
module Utf8 {
  import opened Bytes

  predicate IsScalar(c: int) {
    0 <= c <= 0x10ffff && !(0xd800 <= c <= 0xdfff)
  }

  type Scalar = c: int | 0 <= c <= 0x10ffff && !(0xd800 <= c <= 0xdfff)

  function EncodeScalar(c: Scalar): (s: Text)
    ensures 1 <= |s| <= 4
    ensures forall i :: 0 <= i < |s| && c >= 0x80 ==> s[i] >= 0x80
    ensures c < 0x80 ==> s == [c]
  {
    if c < 0x80 then [c]
    else if c < 0x800 then [0xc0 + c / 0x40, 0x80 + c % 0x40]
    else if c < 0x10000 then [0xe0 + c / 0x1000, 0x80 + c / 0x40 % 0x40, 0x80 + c % 0x40]
    else [0xf0 + c / 0x40000, 0x80 + c / 0x1000 % 0x40, 0x80 + c / 0x40 % 0x40, 0x80 + c % 0x40]
  }

  function Encode(cs: seq<Scalar>): Text {
    if cs == [] then [] else EncodeScalar(cs[0]) + Encode(cs[1..])
  }
}
