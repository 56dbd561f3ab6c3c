/**
  The in-place parser of src/vita/sync_queue.c: `field` replaces delimiters in the request body by
  terminators and hands out positions; `decode` and `decimal` read those C strings. Position -1
  stands for the null pointer.
 */
module QueueParser {
  import opened Bytes
  import opened Strings
  import opened TransferQueue
  import opened QueueFormat
  import TransferRuns

  /** The length up to the first `stop`, or of everything. */
  function Until(s: Text, stop: byte): (k: nat)
    ensures k <= |s|
    ensures forall i :: 0 <= i < k ==> s[i] != stop
    ensures k < |s| ==> s[k] == stop
  {
    if s == [] || s[0] == stop then 0 else 1 + Until(s[1..], stop)
  }

  lemma {:induction false} SplitUntil(s: Text, delimiter: byte)
    ensures var k := Until(s, delimiter);
            Split(s, delimiter) == if k < |s| then [s[..k]] + Split(s[k + 1..], delimiter) else [s]
  {
    var k := Until(s, delimiter);
    if k < |s| {
      assert s == s[..k] + [delimiter] + s[k + 1..];
      SplitAtFirst(s[..k], s[k + 1..], delimiter);
    } else {
      SplitSingle(s, delimiter);
    }
  }

  /** Cuts the text at `cursor` at its first delimiter and returns the position after it. */
  method Field(body: array<byte>, cursor: nat, end: nat, delimiter: byte) returns (next: int)
    requires cursor <= end < body.Length && body[end] == 0 && 0 !in body[cursor..end] && delimiter != 0
    modifies body
    ensures var s := old(body[cursor..end]);
            var k := Until(s, delimiter);
            && next == (if k < |s| then cursor + k + 1 else -1)
            && body[..] == old(body[..])[cursor + k := 0]
  {
    ghost var s := body[cursor..end];
    assert forall j :: cursor <= j < end ==> body[j] == s[j - cursor] != 0;
    var i := cursor;
    while body[i] != 0 && body[i] != delimiter
      invariant cursor <= i <= end
      invariant forall j :: cursor <= j < i ==> body[j] != delimiter
      decreases end - i
    {
      i := i + 1;
    }
    UntilIs(s, delimiter, i - cursor);
    if body[i] != 0 {
      body[i] := 0;
      next := i + 1;
    } else {
      next := -1;
    }
  }

  lemma {:induction false} UntilIs(s: Text, stop: byte, k: nat)
    requires k <= |s|
    requires forall i :: 0 <= i < k ==> s[i] != stop
    requires k < |s| ==> s[k] == stop || s[k] == 0
    requires 0 !in s
    ensures Until(s, stop) == k
  {
  }

  /** The C string at `start`, whose terminator is at `start + |text|`. */
  ghost predicate HoldsString(memory: seq<byte>, start: nat, text: Text) {
    && start + |text| < |memory|
    && memory[start..start + |text|] == text
    && memory[start + |text|] == 0
    && 0 !in text
  }

  /** A read at or before the terminator at `end`. */
  function Load(memory: seq<byte>, i: nat, ghost end: nat): byte
    requires i <= end < |memory|
  {
    memory[i]
  }

  lemma {:induction false} StringBytes(memory: seq<byte>, start: nat, text: Text)
    requires HoldsString(memory, start, text)
    ensures start + |text| < |memory|
    ensures forall k :: 0 <= k < |text| ==> memory[start + k] == text[k] && text[k] != 0
    ensures forall j :: start <= j <= start + |text| ==> (memory[j] == 0 <==> j == start + |text|)
  {
    forall k | 0 <= k < |text| ensures memory[start + k] == text[k] && text[k] != 0 {
      assert memory[start..start + |text|][k] == memory[start + k] && text[k] in text;
    }
    forall j | start <= j <= start + |text| ensures memory[j] == 0 <==> j == start + |text| {
      if j < start + |text| { assert memory[j] == memory[start + (j - start)] == text[j - start]; }
    }
  }

  method ReadString(memory: seq<byte>, start: nat, ghost text: Text) returns (r: Text)
    requires HoldsString(memory, start, text)
    ensures r == text
  {
    StringBytes(memory, start, text);
    ghost var end := start + |text|;
    r := [];
    var i := start;
    while Load(memory, i, end) != 0
      invariant start <= i <= end && r == text[..i - start]
      decreases end - i
    {
      assert text[i - start] == memory[start + (i - start)];
      r := r + [Load(memory, i, end)];
      i := i + 1;
    }
  }

  // ---- one value ----

  ghost function After(done: Text, r: Option<Text>): Option<Text> {
    match r case None => None case Some(rest) => Some(done + rest)
  }

  lemma {:induction false} AfterNothing(r: Option<Text>)
    ensures After([], r) == r
  {
    if r.Some? {
      assert [] + r.value == r.value;
    }
  }

  lemma {:induction false} DecodeStep(done: Text, left: Text, c: byte, skip: nat, capacity: nat)
    requires Next(left, true, c, skip) && capacity > 1 && Printable(c)
    ensures skip <= |left|
    ensures After(done, Decode(left, capacity)) == After(done + [c], Decode(left[skip..], capacity - 1))
  {
    var rest := Decode(left[skip..], capacity - 1);
    if rest.Some? {
      assert done + ([c] + rest.value) == done + [c] + rest.value;
    }
  }

  /**
    `decode` of the C string at `start` into a fixed buffer: it reads nothing behind the terminator,
    stays inside the capacity and leaves a terminated string.
   */
  method DecodeInto(out: array<byte>, memory: seq<byte>, start: nat, ghost input: Text) returns (ok: bool)
    requires out.Length > 0 && HoldsString(memory, start, input)
    modifies out
    ensures ok <==> Decode(input, out.Length).Some?
    ensures ok ==> HoldsString(out[..], 0, Decode(input, out.Length).value)
  {
    hide HoldsString, Decode, Next, After, Decoding;
    StringBytes(memory, start, input);
    ghost var end := start + |input|;
    var n, i := 0, start;
    DecodingStarts(input, out.Length);
    assert input[0..] == input && out[..0] == [];
    while Load(memory, i, end) != 0
      invariant 0 <= n < out.Length && start <= i <= end
      invariant Decoding(out[..n], input[i - start..], input, out.Length)
      decreases end - i
    {
      var ok', c, skip := NextByte(memory, i, input, start);
      ghost var left, done := input[i - start..], out[..n];
      if !ok' || c < 32 || c == 127 || n + 1 >= out.Length {
        DecodingFails(done, left, ok', c, skip, input, out.Length);
        return false;
      }
      DecodingStep(done, left, c, skip, input, out.Length);
      assert input[i + skip - start..] == left[skip..];
      i := i + skip;
      out[n] := c;
      n := n + 1;
      assert out[..n] == done + [c];
    }
    assert input[i - start..] == [];
    DecodingEnds(out[..n], input, out.Length);
    ghost var done := out[..n];
    out[n] := 0;
    assert out[..n] == done;
    HoldsDecoded(out[..], n);
    return true;
  }

  /** `done` is decoded and `left` still to come. */
  ghost predicate Decoding(done: Text, left: Text, input: Text, capacity: nat) {
    0 !in done && |done| < capacity && After(done, Decode(left, capacity - |done|)) == Decode(input, capacity)
  }

  lemma {:induction false} DecodingStarts(input: Text, capacity: nat)
    requires capacity > 0
    ensures Decoding([], input, input, capacity)
  {
    hide Decode;
    AfterNothing(Decode(input, capacity));
  }

  lemma {:induction false} DecodingFails(done: Text, left: Text, ok: bool, c: byte, skip: nat, input: Text, capacity: nat)
    requires Decoding(done, left, input, capacity) && Next(left, ok, c, skip)
    requires !ok || !Printable(c) || |done| + 1 >= capacity
    ensures Decode(input, capacity).None?
  {
    hide Decode, Next;
    DecodeFails(left, ok, c, skip, capacity - |done|);
  }

  lemma {:induction false} DecodingStep(done: Text, left: Text, c: byte, skip: nat, input: Text, capacity: nat)
    requires Decoding(done, left, input, capacity) && Next(left, true, c, skip)
    requires Printable(c) && |done| + 1 < capacity
    ensures skip <= |left| && 0 < skip && Decoding(done + [c], left[skip..], input, capacity)
  {
    hide Decode, After;
    DecodeStep(done, left, c, skip, capacity - |done|);
  }

  lemma {:induction false} DecodingEnds(done: Text, input: Text, capacity: nat)
    requires Decoding(done, [], input, capacity)
    ensures Decode(input, capacity) == Some(done) && 0 !in done
  {
    hide Decode;
    DecodeEnd(capacity - |done|);
    assert done + [] == done;
  }

  lemma {:induction false} HoldsDecoded(memory: seq<byte>, n: nat)
    requires n < |memory| && memory[n] == 0 && 0 !in memory[..n]
    ensures HoldsString(memory, 0, memory[..n])
  {
    assert memory[0..n] == memory[..n];
  }

  lemma {:induction false} DecodeEnd(capacity: nat)
    ensures Decode([], capacity) == Some([])
  {
  }

  /** What the next byte of `left` decodes to: the byte itself, or an escape of three. */
  ghost predicate Next(left: Text, ok: bool, c: byte, skip: nat) {
    left != [] &&
    if left[0] != PERCENT then ok && skip == 1 && c == left[0]
    else
      && ok == (|left| >= 3 && HexValue(left[1]) >= 0 && HexValue(left[2]) >= 0)
      && (ok ==> skip == 3 && c as int == HexValue(left[1]) * 16 + HexValue(left[2]))
  }

  /** Reads one byte or escape; the tests for the terminator come before the reads behind it. */
  method NextByte(memory: seq<byte>, i: nat, ghost input: Text, ghost start: nat) returns (ok: bool, c: byte, skip: nat)
    requires HoldsString(memory, start, input) && start <= i < start + |input|
    ensures Next(input[i - start..], ok, c, skip)
  {
    StringBytes(memory, start, input);
    ghost var end := start + |input|;
    ghost var left := input[i - start..];
    assert forall k :: 0 <= k < |left| ==> left[k] == memory[start + (i - start + k)];
    ok, c, skip := true, Load(memory, i, end), 1;
    if c == PERCENT {
      if Load(memory, i + 1, end) == 0 || Load(memory, i + 2, end) == 0
         || HexValue(Load(memory, i + 1, end)) < 0 || HexValue(Load(memory, i + 2, end)) < 0 { return false, c, skip; }
      c := HexValue(Load(memory, i + 1, end)) * 16 + HexValue(Load(memory, i + 2, end));
      skip := 3;
    }
  }

  lemma {:induction false} DecodeFails(left: Text, ok: bool, c: byte, skip: nat, capacity: nat)
    requires Next(left, ok, c, skip) && (!ok || !Printable(c) || capacity <= 1)
    ensures Decode(left, capacity).None?
  {
  }

  /** `decimal` on 64-bit arithmetic: the guard rejects a digit before it could wrap. */
  method ReadDecimal(memory: seq<byte>, start: nat, ghost input: Text) returns (r: Option<nat>)
    requires HoldsString(memory, start, input)
    ensures r == ParseDecimal(input)
    ensures r.Some? ==> r.value < U64
  {
    StringBytes(memory, start, input);
    hide HoldsString;
    ghost var end := start + |input|;
    if Load(memory, start, end) == 0 { return None; }
    var value: nat := 0;
    var i := start;
    assert input[0..] == input;
    while Load(memory, i, end) != 0
      invariant start <= i <= end && value < U64
      invariant DecimalFrom(input, 0) == DecimalFrom(input[i - start..], value)
      decreases end - i
    {
      assert input[i - start] == memory[start + (i - start)];
      var c := Load(memory, i, end);
      if c < 48 || c > 57 || value > DECIMAL_LIMIT { return None; }
      assert input[i - start..][1..] == input[i + 1 - start..];
      value := Add64(value * 10, c - 48);
      i := i + 1;
    }
    assert input[i - start..] == [];
    return Some(value);
  }

  // ---- one line ----

  /** The first `k` fields have been cut out of the line and stand in memory as C strings. */
  ghost predicate FieldsCut(memory: seq<byte>, starts: seq<nat>, fields: seq<Text>, limit: nat) {
    && |starts| == |fields|
    && limit <= |memory|
    && forall k :: 0 <= k < |fields| ==> starts[k] + |fields[k]| < limit && HoldsString(memory, starts[k], fields[k])
  }

  /** Cutting further on leaves earlier strings alone. */
  lemma {:induction false} FieldsStay(memory: seq<byte>, starts: seq<nat>, fields: seq<Text>, limit: nat, at: nat)
    requires FieldsCut(memory, starts, fields, limit) && limit <= at < |memory|
    ensures FieldsCut(memory[at := 0], starts, fields, limit)
  {
    forall k | 0 <= k < |fields| ensures HoldsString(memory[at := 0], starts[k], fields[k]) {
      var from, to := starts[k], starts[k] + |fields[k]|;
      assert memory[at := 0][from..to] == memory[from..to];
    }
  }

  /** The string cut off at `at` joins the earlier fields. */
  lemma {:induction false} FieldsGrow(memory: seq<byte>, starts: seq<nat>, fields: seq<Text>, part: nat, at: nat, limit: nat)
    requires FieldsCut(memory, starts, fields, part) && part <= at < limit <= |memory| && 0 !in memory[part..at]
    ensures FieldsCut(memory[at := 0], starts + [part], fields + [memory[part..at]], limit)
  {
    FieldsStay(memory, starts, fields, part, at);
    var after, text := memory[at := 0], memory[part..at];
    assert after[part..at] == text;
    assert HoldsString(after, part, text);
    hide HoldsString;
    forall k | 0 <= k < |fields| + 1
      ensures (starts + [part])[k] + |(fields + [text])[k]| < limit && HoldsString(after, (starts + [part])[k], (fields + [text])[k])
    {
      if k < |fields| { assert (starts + [part])[k] == starts[k] && (fields + [text])[k] == fields[k]; }
    }
  }

  lemma {:induction false} PartWithoutZero(s: Text, k: nat)
    requires k <= |s| && 0 !in s
    ensures 0 !in s[..k]
  {
  }

  /** Cuts one more field off the line. */
  method CutField(body: array<byte>, part: nat, end: nat, starts: seq<nat>, ghost fields: seq<Text>)
    returns (next: int, starts': seq<nat>, ghost fields': seq<Text>)
    requires part <= end < body.Length && body[end] == 0 && 0 !in body[part..end]
    requires FieldsCut(body[..], starts, fields, part)
    modifies body
    ensures next == -1 || part < next <= end
    ensures |fields'| == |fields| + 1
    ensures FieldsCut(body[..], starts', fields', if next == -1 then end + 1 else next)
    ensures fields + Split(old(body[part..end]), TAB)
         == fields' + (if next == -1 then [] else Split(old(body[next..end]), TAB))
    ensures next != -1 ==> body[next..end] == old(body[next..end])
    ensures body[end] == 0 && body[..part] == old(body[..part]) && body[end..] == old(body[end..])
  {
    hide FieldsCut, HoldsString, Split, Until;
    ghost var memory := body[..];
    ghost var s := body[part..end];
    ghost var k := Until(s, TAB);
    next := Field(body, part, end, TAB);
    starts', fields' := starts + [part], fields + [s[..k]];
    CutMeans(memory, part, end, k, starts, fields, if next == -1 then end + 1 else next);
    CutKeepsRest(memory, part, k, end);
    assert body[..] == memory[part + k := 0];
    assert body[..part] == body[..][..part] && body[end..] == body[..][end..];
    if next != -1 { assert body[next..end] == body[..][next..end]; }
  }

  /** The cut field joins the earlier ones, and the split of the line is the fields and the split of the rest. */
  lemma {:induction false} CutMeans(memory: seq<byte>, part: nat, end: nat, k: nat, starts: seq<nat>, fields: seq<Text>, limit: nat)
    requires part <= end < |memory| && 0 !in memory[part..end] && FieldsCut(memory, starts, fields, part)
    requires k == Until(memory[part..end], TAB) && limit == if part + k < end then part + k + 1 else end + 1
    ensures var s := memory[part..end];
            && FieldsCut(memory[part + k := 0], starts + [part], fields + [s[..k]], limit)
            && fields + Split(s, TAB)
               == (fields + [s[..k]]) + if part + k < end then Split(memory[part + k + 1..end], TAB) else []
  {
    hide FieldsCut, Split, Until;
    var s := memory[part..end];
    SplitUntil(s, TAB);
    PartWithoutZero(s, k);
    assert memory[part..part + k] == s[..k];
    FieldsGrow(memory, starts, fields, part, part + k, limit);
    if part + k < end {
      assert s[k + 1..] == memory[part + k + 1..end];
      assert fields + ([s[..k]] + Split(s[k + 1..], TAB)) == fields + [s[..k]] + Split(s[k + 1..], TAB);
    } else {
      assert s[..k] == s;
    }
  }

  /** Only the byte at the cut changes, and the terminator at `end` stays. */
  lemma {:induction false} CutKeepsRest(memory: seq<byte>, part: nat, k: nat, end: nat)
    requires part + k <= end < |memory| && memory[end] == 0
    ensures var after := memory[part + k := 0];
            && after[..part] == memory[..part] && after[end..] == memory[end..]
            && (part + k < end ==> after[part + k + 1..end] == memory[part + k + 1..end])
  {
    var after := memory[part + k := 0];
    assert forall i :: 0 <= i < |memory| && i != part + k ==> after[i] == memory[i];
    assert after[end..] == memory[end..];
  }

  lemma {:induction false} NoFieldsCut(memory: seq<byte>, limit: nat)
    requires limit <= |memory|
    ensures FieldsCut(memory, [], [], limit)
  {
  }

  lemma {:induction false} SplitNotEmpty(s: Text, delimiter: byte)
    ensures |Split(s, delimiter)| >= 1
  {
    hide Split;
    SplitUntil(s, delimiter);
  }

  /** Where the fields of the line in body[start..end] stand once they are cut, if there are 15 or 16. */
  method LineFieldsInPlace(body: array<byte>, start: nat, end: nat) returns (fields: Option<seq<nat>>)
    requires start <= end < body.Length && body[end] == 0 && 0 !in body[start..end]
    modifies body
    ensures var all := Split(old(body[start..end]), TAB);
            && (fields.Some? <==> |all| == 15 || |all| == 16)
            && (fields.Some? ==> FieldsCut(body[..], fields.value, all, end + 1))
    ensures body[..start] == old(body[..start]) && body[end..] == old(body[end..])
  {
    hide FieldsCut, HoldsString, Split;
    ghost var all := Split(body[start..end], TAB);
    var part: int := start;
    var starts: seq<nat> := [];
    ghost var cut: seq<Text> := [];
    var i := 0;
    NoFieldsCut(body[..], start);
    assert [] + all == all;
    while i < 15
      invariant 0 <= i <= 15 && |cut| == i
      invariant part == -1 || start <= part <= end
      invariant FieldsCut(body[..], starts, cut, if part == -1 then end + 1 else part)
      invariant all == cut + (if part == -1 then [] else Split(body[part..end], TAB))
      invariant part != -1 ==> 0 !in body[part..end]
      invariant body[..start] == old(body[..start]) && body[end..] == old(body[end..])
    {
      if part == -1 { return None; }
      SplitNotEmpty(body[part..end], TAB);
      assert body[end] == body[end..][0];
      ghost var before, at := body[..], part;
      part, starts, cut := CutField(body, part, end, starts, cut);
      assert body[..start] == body[..at][..start] == before[..start];
      i := i + 1;
    }
    if part != -1 {
      assert body[end] == body[end..][0];
      ghost var before, at := body[..], part;
      part, starts, cut := CutField(body, part, end, starts, cut);
      assert body[..start] == body[..at][..start] == before[..start];
      if part != -1 {
        SplitNotEmpty(body[part..end], TAB);
        return None;
      }
    }
    assert all == cut;
    return Some(starts);
  }

  // ---- one item ----

  lemma {:induction false} FieldHeld(memory: seq<byte>, starts: seq<nat>, fields: seq<Text>, limit: nat, k: nat)
    requires FieldsCut(memory, starts, fields, limit) && k < |fields|
    ensures k < |starts| == |fields| && HoldsString(memory, starts[k], fields[k])
  {
  }

  /** Decodes field k into a buffer of the item. */
  method DecodeField(memory: seq<byte>, starts: seq<nat>, k: nat, capacity: nat, ghost fields: seq<Text>, ghost limit: nat)
    returns (text: Option<Text>)
    requires FieldsCut(memory, starts, fields, limit) && k < |fields| && capacity > 0
    ensures text == Decode(fields[k], capacity)
  {
    hide FieldsCut, Decode, HoldsString;
    FieldHeld(memory, starts, fields, limit, k);
    var out := new byte[capacity];
    var ok := DecodeInto(out, memory, starts[k], fields[k]);
    if !ok { return None; }
    var value := ReadString(out[..], 0, Decode(fields[k], capacity).value);
    text := Some(value);
  }

  const NUMBER_POSITIONS: seq<nat> := [2, 3, 4, 11, 12, 13, 14]

  /** The seven numbers, in the order of their positions. */
  method ReadNumbers(memory: seq<byte>, starts: seq<nat>, ghost fields: seq<Text>, ghost limit: nat)
    returns (numbers: Option<seq<nat>>)
    requires FieldsCut(memory, starts, fields, limit) && |fields| >= 15
    ensures numbers.Some? ==> |numbers.value| == 7
    ensures numbers.Some? ==>
              forall j :: 0 <= j < 7 ==> ParseDecimal(fields[NUMBER_POSITIONS[j]]) == Some(numbers.value[j])
    ensures numbers.None? ==> exists j :: 0 <= j < 7 && ParseDecimal(fields[NUMBER_POSITIONS[j]]).None?
  {
    hide FieldsCut, ParseDecimal, HoldsString;
    var values: seq<nat> := [];
    for j := 0 to 7
      invariant |values| == j
      invariant forall i :: 0 <= i < j ==> ParseDecimal(fields[NUMBER_POSITIONS[i]]) == Some(values[i])
    {
      FieldHeld(memory, starts, fields, limit, NUMBER_POSITIONS[j]);
      var value := ReadDecimal(memory, starts[NUMBER_POSITIONS[j]], fields[NUMBER_POSITIONS[j]]);
      if value.None? { return None; }
      values := values + [value.value];
    }
    numbers := Some(values);
  }

  function Padded(fields: seq<Text>): (f: seq<Text>)
    requires |fields| == 15 || |fields| == 16
    ensures |f| == 16 && forall k :: 0 <= k < |fields| ==> f[k] == fields[k]
  {
    if |fields| == 15 then fields + [[]] else fields
  }

  /** The numbers and the extension of an item without texts. */
  function Head(id: Text, extension: Text, n: seq<nat>): Metadata
    requires |n| == 7
  {
    Metadata(id, extension, n[0], n[1], n[2], [], [], [], [], [], [], n[3], n[4], n[5], n[6], [])
  }

  /** The range and extension checks, in the order of the source. */
  method CheckHead(m: Metadata) returns (ok: bool)
    ensures ok == Ranged(m)
  {
    if m.size == 0 || m.size > MAX_MEDIA || m.subtitleSize > MAX_SUBTITLE || m.kind > 2 { return false; }
    if m.durationMs > 360000000 || m.sampleRate > 96000 || m.channels > 2 || m.track > 99999 { return false; }
    var photo := m.extension in PHOTO_EXTENSIONS;
    var music := m.extension in MUSIC_EXTENSIONS;
    if (m.kind == 0 && !photo)
       || (m.kind == 1 && (!music || m.durationMs == 0 || m.sampleRate == 0 || m.channels == 0))
       || (m.kind == 2 && m.extension != MP4) { return false; }
    if m.subtitleSize != 0 && m.kind != 2 { return false; }
    return true;
  }

  /** The six texts behind the checks; the name must not be empty. */
  method ReadTexts(memory: seq<byte>, starts: seq<nat>, head: Metadata, folder: Text,
                   ghost fields: seq<Text>, ghost limit: nat)
    returns (item: Option<Metadata>)
    requires FieldsCut(memory, starts, fields, limit) && (|fields| == 15 || |fields| == 16)
    requires head.id == fields[0] && Decode(fields[1], 8) == Some(head.extension)
    requires Decode(Padded(fields)[15], 256) == Some(folder)
    ensures var t := Texts(Padded(fields));
            item == if t.Some? && t.value.name != [] then
                      Some(t.value.(size := head.size, subtitleSize := head.subtitleSize, kind := head.kind,
                                    durationMs := head.durationMs, sampleRate := head.sampleRate,
                                    channels := head.channels, track := head.track))
                    else None
  {
    hide FieldsCut, Decode;
    var name := DecodeField(memory, starts, 5, 256, fields, limit);
    if name.None? || name.value == [] { return None; }
    var title := DecodeField(memory, starts, 6, 256, fields, limit);
    if title.None? { return None; }
    var artist := DecodeField(memory, starts, 7, 256, fields, limit);
    if artist.None? { return None; }
    var album := DecodeField(memory, starts, 8, 256, fields, limit);
    if album.None? { return None; }
    var albumArtist := DecodeField(memory, starts, 9, 256, fields, limit);
    if albumArtist.None? { return None; }
    var genre := DecodeField(memory, starts, 10, 128, fields, limit);
    if genre.None? { return None; }
    item := Some(head.(name := name.value, title := title.value, artist := artist.value, album := album.value,
                       albumArtist := albumArtist.value, genre := genre.value, folder := folder));
  }

  /** The item of a line, unless its id is taken. */
  ghost function Entered(fields: seq<Text>, parsed: seq<Metadata>): Option<Metadata> {
    match ParseFields(fields)
    case None => None
    case Some(m) => if IdUsed(parsed, m.id) then None else Some(m)
  }

  lemma {:induction false} NoExtensionOrFolder(fields: seq<Text>, parsed: seq<Metadata>)
    requires |fields| == 15 || |fields| == 16
    requires Decode(fields[1], 8).None? || Decode(Padded(fields)[15], 256).None?
    ensures Entered(fields, parsed).None?
  {
    hide Decode, Valid, Numbers;
  }

  lemma {:induction false} TextsId(f: seq<Text>)
    requires |f| == 16 && Texts(f).Some?
    ensures var t := Texts(f).value;
            && t.id == f[0] && Decode(f[1], 8) == Some(t.extension) && Decode(f[15], 256) == Some(t.folder)
            && TextsFit(t)
  {
    hide Decode, Fits;
    DecodedFits(f[5], 256);
    DecodedFits(f[6], 256);
    DecodedFits(f[7], 256);
    DecodedFits(f[8], 256);
    DecodedFits(f[9], 256);
    DecodedFits(f[10], 128);
    DecodedFits(f[15], 256);
  }

  lemma {:induction false} BadId(fields: seq<Text>, parsed: seq<Metadata>)
    requires |fields| == 15 || |fields| == 16
    requires !IdValid(fields[0]) || IdUsed(parsed, fields[0])
    ensures Entered(fields, parsed).None?
  {
    var f := Padded(fields);
    if Texts(f).Some? { TextsId(f); }
    hide Texts, IdValid, Ranged, TextsFit, IdUsed;
  }

  lemma {:induction false} BadNumber(fields: seq<Text>, parsed: seq<Metadata>, j: nat)
    requires |fields| == 15 || |fields| == 16
    requires j < 7 && ParseDecimal(fields[NUMBER_POSITIONS[j]]).None?
    ensures Entered(fields, parsed).None?
  {
    hide Texts, ParseDecimal, Valid;
    var f := Padded(fields);
    assert f[NUMBER_POSITIONS[j]] == fields[NUMBER_POSITIONS[j]];
    assert NUMBER_POSITIONS[j] in {2, 3, 4, 11, 12, 13, 14};
    if Texts(f).Some? { assert Numbers(f, Texts(f).value).None?; }
  }

  /** With its numbers known, an item is entered exactly if its head is in range and its texts decode. */
  lemma {:induction false} EnteredIs(fields: seq<Text>, parsed: seq<Metadata>, n: seq<nat>, extension: Text)
    requires (|fields| == 15 || |fields| == 16) && |n| == 7
    requires forall j :: 0 <= j < 7 ==> ParseDecimal(fields[NUMBER_POSITIONS[j]]) == Some(n[j])
    requires IdValid(fields[0]) && !IdUsed(parsed, fields[0]) && Decode(fields[1], 8) == Some(extension)
    ensures var t := Texts(Padded(fields));
            Entered(fields, parsed) ==
              if t.Some? && t.value.name != [] && Ranged(Head(fields[0], extension, n)) then
                Some(t.value.(size := n[0], subtitleSize := n[1], kind := n[2], durationMs := n[3],
                              sampleRate := n[4], channels := n[5], track := n[6]))
              else None
  {
    hide Texts, ParseDecimal, IdValid, Fits, IdUsed, Decode;
    var f := Padded(fields);
    if Texts(f).Some? {
      TextsId(f);
      assert ParseDecimal(f[2]) == Some(n[0]) by { assert NUMBER_POSITIONS[0] == 2; }
      assert ParseDecimal(f[3]) == Some(n[1]) by { assert NUMBER_POSITIONS[1] == 3; }
      assert ParseDecimal(f[4]) == Some(n[2]) by { assert NUMBER_POSITIONS[2] == 4; }
      assert ParseDecimal(f[11]) == Some(n[3]) by { assert NUMBER_POSITIONS[3] == 11; }
      assert ParseDecimal(f[12]) == Some(n[4]) by { assert NUMBER_POSITIONS[4] == 12; }
      assert ParseDecimal(f[13]) == Some(n[5]) by { assert NUMBER_POSITIONS[5] == 13; }
      assert ParseDecimal(f[14]) == Some(n[6]) by { assert NUMBER_POSITIONS[6] == 14; }
    }
  }

  /** One item from its cut fields, step by step as the source reads it. */
  method ParseItem(memory: seq<byte>, starts: seq<nat>, ghost fields: seq<Text>, ghost limit: nat, parsed: seq<Metadata>)
    returns (item: Option<Metadata>)
    requires FieldsCut(memory, starts, fields, limit) && (|fields| == 15 || |fields| == 16)
    ensures item == Entered(fields, parsed)
  {
    hide FieldsCut, Decode, Texts, ParseDecimal, Entered, IdValid, IdUsed, Ranged, HoldsString;
    FieldHeld(memory, starts, fields, limit, 0);
    var folder: Option<Text> := Some([]);
    if |starts| == 16 { folder := DecodeField(memory, starts, 15, 256, fields, limit); } else { DecodeEnd(256); }
    if folder.None? {
      NoExtensionOrFolder(fields, parsed);
      return None;
    }
    var id := ReadString(memory, starts[0], fields[0]);
    if !IdValid(id) {
      BadId(fields, parsed);
      return None;
    }
    var extension := DecodeField(memory, starts, 1, 8, fields, limit);
    if extension.None? {
      NoExtensionOrFolder(fields, parsed);
      return None;
    }
    var seen := IdSeen(parsed, id);
    if seen {
      BadId(fields, parsed);
      return None;
    }
    var numbers := ReadNumbers(memory, starts, fields, limit);
    if numbers.None? {
      ghost var j :| 0 <= j < 7 && ParseDecimal(fields[NUMBER_POSITIONS[j]]).None?;
      BadNumber(fields, parsed, j);
      return None;
    }
    EnteredIs(fields, parsed, numbers.value, extension.value);
    var head := Head(id, extension.value, numbers.value);
    var ranged := CheckHead(head);
    if !ranged { return None; }
    item := ReadTexts(memory, starts, head, folder.value, fields, limit);
  }

  // ---- the whole body ----

  lemma {:induction false} BodyLinesPrepend(line: Text, rest: seq<Text>)
    requires rest != []
    ensures BodyLines([line] + rest) == [line] + BodyLines(rest)
  {
    var all := [line] + rest;
    assert all[|all| - 1] == rest[|rest| - 1];
    assert all[..|all| - 1] == [line] + rest[..|rest| - 1];
  }

  lemma {:induction false} BodyLinesUntil(s: Text)
    requires s != []
    ensures var k := Until(s, NEWLINE);
            BodyLines(Split(s, NEWLINE))
            == [s[..k]] + (if k < |s| then BodyLines(Split(s[k + 1..], NEWLINE)) else [])
  {
    SplitUntil(s, NEWLINE);
    var k := Until(s, NEWLINE);
    if k < |s| {
      BodyLinesPrepend(s[..k], Split(s[k + 1..], NEWLINE));
    } else {
      var all := [s];
      assert s[..k] == s && all[|all| - 1] == s;
    }
  }

  /** The lines still to be parsed at `cursor`. */
  ghost function Remaining(body: Text, cursor: int): seq<Text>
    requires cursor <= |body|
  {
    if cursor < 0 then [] else BodyLines(Split(body[cursor..], NEWLINE))
  }

  method IdSeen(items: seq<Metadata>, id: Text) returns (seen: bool)
    ensures seen == IdUsed(items, id)
  {
    for j := 0 to |items|
      invariant forall i :: 0 <= i < j ==> items[i].id != id
    {
      if items[j].id == id { return true; }
    }
    return false;
  }

  /** Cuts the line at `cursor` and its fields. */
  method CutLine(body: array<byte>, cursor: nat, end: nat) returns (next: int, fields: Option<seq<nat>>)
    requires cursor < end < body.Length && body[end] == 0 && 0 !in body[cursor..end]
    modifies body
    ensures var s := old(body[cursor..end]);
            var k := Until(s, NEWLINE);
            var all := Split(s[..k], TAB);
            && next == (if k < |s| then cursor + k + 1 else -1)
            && (fields.Some? <==> |all| == 15 || |all| == 16)
            && (fields.Some? ==> FieldsCut(body[..], fields.value, all, cursor + k + 1))
            && (k < |s| ==> body[next..end] == s[k + 1..])
    ensures body[end] == 0
  {
    hide Split, Until;
    ghost var s := body[cursor..end];
    ghost var k := Until(s, NEWLINE);
    next := Field(body, cursor, end, NEWLINE);
    var stop := if next == -1 then end else next - 1;
    PartWithoutZero(s, k);
    assert body[cursor..stop] == s[..k];
    ghost var memory := body[..];
    ghost var tail := body[stop..];
    assert tail[end - stop] == memory[end] == 0;
    if next != -1 { assert tail[1..end - stop] == memory[next..end] == s[k + 1..]; }
    fields := LineFieldsInPlace(body, cursor, stop);
    assert body[end] == body[stop..][end - stop];
    if next != -1 { assert body[next..end] == body[stop..][1..end - stop]; }
  }

  /** One round of the item loop: cuts a line and adds its item. */
  method ParseLine(body: array<byte>, cursor: nat, end: nat, parsed: seq<Metadata>)
    returns (next: int, items: Option<seq<Metadata>>)
    requires cursor < end < body.Length && body[end] == 0 && 0 !in body[cursor..end] && |parsed| <= QUEUE_MAX
    modifies body
    ensures next == -1 || cursor < next <= end
    ensures next != -1 ==> body[next..end] == old(body[next..end])
    ensures body[end] == 0
    ensures items.Some? ==> |parsed| < QUEUE_MAX && |items.value| == |parsed| + 1 && items.value[..|parsed|] == parsed
    ensures items.Some? ==> Valid(items.value[|parsed|])
    ensures ParseLines(BodyLines(Split(old(body[cursor..end]), NEWLINE)), parsed)
         == match items
            case None => None
            case Some(more) =>
              ParseLines(if next < 0 then [] else BodyLines(Split(old(body[next..end]), NEWLINE)), more)
  {
    hide Split, Until, BodyLines, ParseLines, ParseFields, FieldsCut, Valid, Entered;
    ghost var s := body[cursor..end];
    ghost var k := Until(s, NEWLINE);
    ghost var line := s[..k];
    ghost var rest := if k < |s| then BodyLines(Split(s[k + 1..], NEWLINE)) else [];
    BodyLinesUntil(s);
    LinesStep(line, rest, parsed);
    if |parsed| == QUEUE_MAX { return -1, None; }
    var fields;
    next, fields := CutLine(body, cursor, end);
    if next != -1 {
      assert s[k + 1..] == old(body[next..end]);
    }
    if fields.None? { return next, None; }
    var item := ParseItem(body[..], fields.value, Split(line, TAB), cursor + k + 1, parsed);
    if item.None? { return next, None; }
    EnteredIsValid(Split(line, TAB), parsed);
    return next, Some(parsed + [item.value]);
  }

  /** The specification's step over one line. */
  lemma {:induction false} LinesStep(line: Text, rest: seq<Text>, parsed: seq<Metadata>)
    ensures var m := Entered(Split(line, TAB), parsed);
            ParseLines([line] + rest, parsed) ==
              if |parsed| == QUEUE_MAX || m.None? then None else ParseLines(rest, parsed + [m.value])
    ensures |Split(line, TAB)| != 15 && |Split(line, TAB)| != 16 ==> Entered(Split(line, TAB), parsed).None?
  {
    hide Split, Texts, Numbers, Valid;
    assert ([line] + rest)[1..] == rest;
  }

  lemma {:induction false} EnteredIsValid(fields: seq<Text>, parsed: seq<Metadata>)
    requires Entered(fields, parsed).Some?
    ensures Valid(Entered(fields, parsed).value)
  {
    hide Texts, Numbers, Valid;
  }

  ghost predicate AllValid(items: seq<Metadata>) {
    |items| <= QUEUE_MAX && forall i :: 0 <= i < |items| ==> Valid(items[i])
  }

  lemma {:induction false} TotalOfMore(items: seq<Metadata>, m: Metadata)
    ensures TransferRuns.DeclaredTotal(items + [m]) == TransferRuns.DeclaredTotal(items) + m.size + m.subtitleSize
  {
    if items == [] {
      assert items + [m] == [m] && [m][1..] == [];
    } else {
      assert (items + [m])[1..] == items[1..] + [m];
      TotalOfMore(items[1..], m);
    }
  }

  /** One more item adds its bytes to the total without wrapping. */
  lemma {:induction false} TotalGrows(items: seq<Metadata>, more: seq<Metadata>)
    requires AllValid(items) && |items| < QUEUE_MAX && |more| == |items| + 1 && more[..|items|] == items
    requires Valid(more[|items|])
    ensures AllValid(more)
    ensures var m := more[|items|];
            TransferRuns.DeclaredTotal(more) == Add64(TransferRuns.DeclaredTotal(items), m.size + m.subtitleSize)
  {
    var m := more[|items|];
    assert more == items + [m];
    hide Valid;
    TotalOfMore(items, m);
    TotalBounded(more);
    assert |more| * (MAX_MEDIA + MAX_SUBTITLE) <= QUEUE_MAX * (MAX_MEDIA + MAX_SUBTITLE) < U64;
  }

  /** The item loop from `cursor` on. */
  method ParseItems(body: array<byte>, start: int, end: nat, ghost text: Text)
    returns (r: Option<seq<Metadata>>, total: nat)
    requires end < body.Length && body[end] == 0 && |text| == end && 0 !in text && 0 <= start <= end
    requires body[start..end] == text[start..]
    modifies body
    ensures r == ParseLines(Remaining(text, start), [])
    ensures r.Some? ==> total == TransferRuns.DeclaredTotal(r.value)
  {
    hide ParseLines, Remaining, Valid, AllValid, Split, BodyLines;
    var items: seq<Metadata> := [];
    var cursor := start;
    total := 0;
    NothingParsed();
    while cursor >= 0 && body[cursor] != 0
      invariant -1 <= cursor <= end && body[end] == 0
      invariant cursor >= 0 ==> body[cursor..end] == text[cursor..]
      invariant ParseLines(Remaining(text, cursor), items) == ParseLines(Remaining(text, start), [])
      invariant |items| <= QUEUE_MAX && AllValid(items) && total == TransferRuns.DeclaredTotal(items)
      decreases if cursor < 0 then 0 else end - cursor + 1
    {
      ghost var before := cursor;
      RemainingIs(text, before);
      var more;
      cursor, more := ParseLine(body, cursor, end, items);
      RemainingIs(text, cursor);
      if more.None? { return None, total; }
      TotalGrows(items, more.value);
      items := more.value;
      total := Add64(total, items[|items| - 1].size + items[|items| - 1].subtitleSize);
      if cursor >= 0 {
        assert text[before..][cursor - before..] == text[cursor..];
      }
    }
    if cursor >= 0 { AtEndOfText(body[..], text, cursor, end); }
    NothingRemains(text, cursor, items);
    r := Some(items);
  }

  lemma {:induction false} AtEndOfText(memory: seq<byte>, text: Text, cursor: nat, end: nat)
    requires |text| == end < |memory| && cursor <= end && memory[cursor..end] == text[cursor..] && 0 !in text
    requires memory[end] == 0
    ensures memory[cursor] == 0 <==> cursor == end
  {
    if cursor < end {
      assert memory[cursor] == memory[cursor..end][0] == text[cursor..][0] == text[cursor];
      assert text[cursor] in text;
    }
  }

  lemma {:induction false} RemainingIs(text: Text, cursor: int)
    requires cursor <= |text|
    ensures Remaining(text, cursor) == if cursor < 0 then [] else BodyLines(Split(text[cursor..], NEWLINE))
  {
  }

  lemma {:induction false} NothingRemains(text: Text, cursor: int, items: seq<Metadata>)
    requires cursor < 0 || cursor == |text|
    ensures ParseLines(Remaining(text, cursor), items) == Some(items)
  {
    if cursor >= 0 { assert text[cursor..] == []; }
  }

  lemma {:induction false} NothingParsed()
    ensures AllValid([]) && TransferRuns.DeclaredTotal([]) == 0
  {
  }

  /** What the parse of a body is, once its first line is cut off at k. */
  lemma {:induction false} ParseFrom(text: Text)
    ensures var k := Until(text, NEWLINE);
            Parse(text) ==
              if !IdValid(text[..k]) || k == |text| then None
              else match ParseLines(Remaining(text, k + 1), [])
                   case None => None
                   case Some(items) =>
                     if items == [] then None
                     else Some(Publication(text[..k], items, TransferRuns.DeclaredTotal(items)))
  {
    hide Split, BodyLines, ParseLines, IdValid, Until;
    var k := Until(text, NEWLINE);
    SplitUntil(text, NEWLINE);
    if k < |text| {
      assert ([text[..k]] + Split(text[k + 1..], NEWLINE))[1..] == Split(text[k + 1..], NEWLINE);
    } else {
      assert text[..k] == text;
    }
  }

  /** The whole parse, cutting the request body in place, computes `Parse` of the body as received. */
  method ParseInPlace(body: array<byte>, end: nat) returns (r: Option<Publication>)
    requires end < body.Length && body[end] == 0 && 0 !in body[..end]
    modifies body
    ensures r == Parse(old(body[..end]))
  {
    hide Parse, ParseLines, Remaining, Until, IdValid, HoldsString;
    ghost var text := body[..end];
    assert body[0..end] == text;
    ParseFrom(text);
    ghost var k := Until(text, NEWLINE);
    var cursor := Field(body, 0, end, NEWLINE);
    HoldsFirstLine(body[..], text, k);
    var id := ReadString(body[..], 0, text[..k]);
    if !IdValid(id) { return None; }
    if cursor == -1 { return None; }
    assert body[cursor..end] == text[cursor..];
    var items, total := ParseItems(body, cursor, end, text);
    if items.None? || items.value == [] { return None; }
    return Some(Publication(id, items.value, total));
  }

  lemma {:induction false} HoldsFirstLine(memory: seq<byte>, text: Text, k: nat)
    requires k <= |text| < |memory| && memory[k] == 0 && memory[..k] == text[..k] && 0 !in text
    ensures HoldsString(memory, 0, text[..k])
  {
    assert memory[0..k] == text[..k];
  }
}
