/** Decimal numerals, joining and splitting, shared by the text formats. */
module Strings {
  import opened Bytes

  function Decimal(n: nat): Text {
    if n < 10 then [48 + n] else Decimal(n / 10) + [48 + n % 10]
  }

  function Join(parts: seq<Text>, delimiter: byte): Text
    requires parts != []
  {
    if |parts| == 1 then parts[0] else parts[0] + [delimiter] + Join(parts[1..], delimiter)
  }

  function Split(s: Text, delimiter: byte): (parts: seq<Text>)
    ensures parts != []
  {
    if s == [] then [[]]
    else if s[0] == delimiter then [[]] + Split(s[1..], delimiter)
    else var rest := Split(s[1..], delimiter); [[s[0]] + rest[0]] + rest[1..]
  }

  lemma {:induction false} SplitAtFirst(part: Text, rest: Text, delimiter: byte)
    requires delimiter !in part
    ensures Split(part + [delimiter] + rest, delimiter) == [part] + Split(rest, delimiter)
  {
    var s := part + [delimiter] + rest;
    if part == [] {
      assert s[1..] == rest;
    } else {
      assert s[1..] == part[1..] + [delimiter] + rest;
      SplitAtFirst(part[1..], rest, delimiter);
      assert part == [part[0]] + part[1..];
    }
  }

  lemma {:induction false} SplitSingle(part: Text, delimiter: byte)
    requires delimiter !in part
    ensures Split(part, delimiter) == [part]
  {
    if part != [] {
      SplitSingle(part[1..], delimiter);
      assert part == [part[0]] + part[1..];
    }
  }

  lemma {:induction false} SplitJoin(parts: seq<Text>, delimiter: byte)
    requires parts != []
    requires forall i :: 0 <= i < |parts| ==> delimiter !in parts[i]
    ensures Split(Join(parts, delimiter), delimiter) == parts
  {
    if |parts| == 1 {
      SplitSingle(parts[0], delimiter);
    } else {
      SplitJoin(parts[1..], delimiter);
      SplitAtFirst(parts[0], Join(parts[1..], delimiter), delimiter);
    }
  }

  lemma {:induction false} JoinAvoids(parts: seq<Text>, delimiter: byte, b: byte)
    requires parts != [] && b != delimiter
    requires forall i :: 0 <= i < |parts| ==> b !in parts[i]
    ensures b !in Join(parts, delimiter)
  {
    if |parts| > 1 {
      JoinAvoids(parts[1..], delimiter, b);
    }
  }
}
