/**
  ISO base media boxes as src/desktop/subtitle_formats/build_vita_m4t.py writes and reads them
  (section 4.2 of ISO/IEC 14496-12).
 */
module Boxes {
  import opened Bytes

  // ---- big-endian numbers ----

  function Be16(n: nat): (s: Text)
    requires n < U16
    ensures |s| == 2
  {
    [n / 256, n % 256]
  }

  function Be32(n: nat): (s: Text)
    requires n < U32
    ensures |s| == 4
  {
    Be16(n / U16) + Be16(n % U16)
  }

  function Be64(n: nat): (s: Text)
    requires n < U64
    ensures |s| == 8
  {
    Be32(n / U32) + Be32(n % U32)
  }

  function Read16(data: Text, at: nat): (n: nat)
    requires at + 2 <= |data|
    ensures n < U16
  {
    256 * (data[at] as int) + data[at + 1] as int
  }

  function Read32(data: Text, at: nat): (n: nat)
    requires at + 4 <= |data|
    ensures n < U32
  {
    Read16(data, at) * U16 + Read16(data, at + 2)
  }

  function Read64(data: Text, at: nat): nat
    requires at + 8 <= |data|
  {
    Read32(data, at) * U32 + Read32(data, at + 4)
  }

  // ---- a piece standing at an offset ----

  predicate At(data: Text, at: nat, piece: Text) {
    at + |piece| <= |data| && data[at..at + |piece|] == piece
  }

  lemma {:induction false} AtLeft(a: Text, b: Text, at: nat, piece: Text)
    requires At(a, at, piece)
    ensures At(a + b, at, piece)
  {
    assert (a + b)[at..at + |piece|] == a[at..at + |piece|];
  }

  lemma {:induction false} AtRight(a: Text, b: Text, at: nat, piece: Text)
    requires At(b, at, piece)
    ensures At(a + b, |a| + at, piece)
  {
    assert (a + b)[|a| + at..|a| + at + |piece|] == b[at..at + |piece|];
  }

  lemma {:induction false} AtInside(data: Text, outer: nat, middle: Text, inner: nat, piece: Text)
    requires At(data, outer, middle) && At(middle, inner, piece)
    ensures At(data, outer + inner, piece)
  {
    forall k | 0 <= k < |piece| ensures data[outer + inner + k] == piece[k] {
      assert piece[k] == middle[inner..inner + |piece|][k] == middle[inner + k];
      assert middle[inner + k] == data[outer..outer + |middle|][inner + k];
    }
  }

  lemma {:induction false} Read16At(data: Text, at: nat, n: nat)
    requires n < U16 && At(data, at, Be16(n))
    ensures Read16(data, at) == n
  {
    var s := data[at..at + 2];
    assert data[at] == s[0] && data[at + 1] == s[1];
  }

  lemma {:induction false} Read32At(data: Text, at: nat, n: nat)
    requires n < U32 && At(data, at, Be32(n))
    ensures Read32(data, at) == n
  {
    AtParts(data, at, Be16(n / U16), Be16(n % U16));
    Read16At(data, at, n / U16);
    Read16At(data, at + 2, n % U16);
  }

  lemma {:induction false} Read64At(data: Text, at: nat, n: nat)
    requires n < U64 && At(data, at, Be64(n))
    ensures Read64(data, at) == n
  {
    AtParts(data, at, Be32(n / U32), Be32(n % U32));
    Read32At(data, at, n / U32);
    Read32At(data, at + 4, n % U32);
  }

  lemma {:induction false} AtParts(data: Text, at: nat, a: Text, b: Text)
    requires At(data, at, a + b)
    ensures At(data, at, a) && At(data, at + |a|, b)
  {
    var s := data[at..at + |a| + |b|];
    assert s[..|a|] == a && s[|a|..] == b;
    assert data[at..at + |a|] == s[..|a|];
    assert data[at + |a|..at + |a| + |b|] == s[|a|..];
  }

  // ---- writing boxes ----

  /** A four-character box type. */
  type Name = n: Text | |n| == 4 witness [0, 0, 0, 0]

  function Box(name: Name, payload: Text): (s: Text)
    requires |payload| + 8 < U32
    ensures |s| == |payload| + 8
  {
    Be32(|payload| + 8) + name + payload
  }

  function FullBox(name: Name, version: byte, flags: nat, payload: Text): (s: Text)
    requires |payload| + 12 < U32 && flags < 0x1000000
    ensures |s| == |payload| + 12
  {
    Box(name, [version, flags / U16, flags / 256 % 256, flags % 256] + payload)
  }

  // ---- reading boxes ----

  datatype Entry = Entry(offset: nat, size: nat, name: Name)

  function BoxesIn(data: Text, start: nat, end: nat): Option<seq<Entry>>
    requires end <= |data|
    decreases end - start
  {
    if start >= end then Some([])
    else if start + 8 > end then None
    else
      var size := Read32(data, start);
      if size < 8 || start + size > end then None
      else
        match BoxesIn(data, start + size, end)
        case None => None
        case Some(rest) => Some([Entry(start, size, data[start + 4..start + 8])] + rest)
  }

  predicate Inside(data: Text, e: Entry, start: nat, end: nat)
    requires end <= |data|
  {
    && start <= e.offset && 8 <= e.size && e.offset + e.size <= end
    && Read32(data, e.offset) == e.size && data[e.offset + 4..e.offset + 8] == e.name
  }

  /** Scanned boxes lie inside the range and are what the bytes there say. */
  lemma {:induction false} ScannedInside(data: Text, start: nat, end: nat)
    requires end <= |data| && BoxesIn(data, start, end).Some?
    ensures forall e :: e in BoxesIn(data, start, end).value ==> Inside(data, e, start, end)
    decreases end - start
  {
    if start < end {
      ScannedInside(data, start + Read32(data, start), end);
    }
  }

  /** The generator `boxes` as a loop; None stands for its ValueError. */
  method ScanBoxes(data: Text, start: nat, end: nat) returns (r: Option<seq<Entry>>)
    requires end <= |data|
    ensures r == BoxesIn(data, start, end)
  {
    var found: seq<Entry> := [];
    var offset := start;
    ghost var all := BoxesIn(data, start, end);
    if all.Some? { assert found + all.value == all.value; }
    while offset < end
      invariant match BoxesIn(data, offset, end)
                case None => all == None
                case Some(rest) => all == Some(found + rest)
      decreases end - offset
    {
      if offset + 8 > end { return None; }
      var size := Read32(data, offset);
      if size < 8 || offset + size > end { return None; }
      ghost var rest := BoxesIn(data, offset + size, end);
      var entry := Entry(offset, size, data[offset + 4..offset + 8]);
      if rest.Some? {
        assert found + ([entry] + rest.value) == found + [entry] + rest.value;
      }
      found := found + [entry];
      offset := offset + size;
    }
    assert found + [] == found;
    return Some(found);
  }

  /** Scanning over a written box yields it and goes on behind it. */
  lemma {:induction false} ScanWritten(data: Text, start: nat, end: nat, name: Name, payload: Text)
    requires |payload| + 8 < U32 && At(data, start, Box(name, payload)) && start + |payload| + 8 <= end <= |data|
    ensures var rest := BoxesIn(data, start + |payload| + 8, end);
            BoxesIn(data, start, end)
            == if rest.None? then None else Some([Entry(start, |payload| + 8, name)] + rest.value)
  {
    var head := Be32(|payload| + 8);
    assert Box(name, payload) == head + (name + payload);
    AtParts(data, start, head, name + payload);
    AtParts(data, start + 4, name, payload);
    Read32At(data, start, |payload| + 8);
  }

  /** Where the payload of a written box stands. */
  lemma {:induction false} PayloadAt(data: Text, at: nat, name: Name, payload: Text)
    requires |payload| + 8 < U32 && At(data, at, Box(name, payload))
    ensures At(data, at + 8, payload)
  {
    var head := Be32(|payload| + 8) + name;
    assert Box(name, payload) == head + payload;
    AtParts(data, at, head, payload);
  }

  lemma {:induction false} FullPayloadAt(data: Text, at: nat, name: Name, version: byte, flags: nat, payload: Text)
    requires |payload| + 12 < U32 && flags < 0x1000000 && At(data, at, FullBox(name, version, flags, payload))
    ensures At(data, at + 12, payload) && data[at + 8] == version
  {
    var head: Text := [version, flags / U16, flags / 256 % 256, flags % 256];
    PayloadAt(data, at, name, head + payload);
    AtParts(data, at + 8, head, payload);
    assert data[at + 8] == data[at + 8..at + 12][0];
  }
}
