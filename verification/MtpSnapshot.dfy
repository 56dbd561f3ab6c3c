/**
  Building the catalogue (src/vita/mtp_catalog.c and src/vita/mtp_snapshot.c): names and texts are
  copied into fixed, zero-cleared buffers in place.
 */
module MtpSnapshot {
  import opened Bytes
  import opened Utf8
  import opened MtpCatalog
  import Dxt1

  const NAME_SIZE: nat := 256
  const TEXT_SIZE: nat := 128
  const DATE_SIZE: nat := 24
  const SAFE_TITLE: nat := 240

  /** A C string: no zero inside. */
  type CText = s: Text | 0 !in s

  function Zeros(n: nat): (s: Text)
    ensures |s| == n && forall i :: 0 <= i < n ==> s[i] == 0
  {
    seq(n, _ => 0)
  }

  // ---- names ----

  /** A byte no path or control character. */
  predicate Plain(c: byte) { c >= 32 && c != 127 && c != 47 && c != 92 && c != 58 }

  predicate NameOk(s: Text) {
    && 1 <= |s| <= 240 && (forall i :: 0 <= i < |s| ==> Plain(s[i]))
    && s[|s| - 1] != 32 && s[|s| - 1] != 46
  }

  function NameBuffer(s: Text): (b: Text)
    requires |s| <= NAME_SIZE
    ensures |b| == NAME_SIZE
  {
    s + Zeros(NAME_SIZE - |s|)
  }

  /** Copies an acceptable name in place; a rejected one may leave a prefix behind. */
  method CopyName(target: array<byte>, source: CText) returns (ok: bool)
    requires target.Length == NAME_SIZE
    modifies target
    ensures ok == NameOk(source)
    ensures ok ==> target[..] == source + [0] + old(target[..])[|source| + 1..]
  {
    if source == [] { return false; }
    var length := 0;
    while length < |source|
      invariant 0 <= length <= |source| && length <= 240
      invariant forall i :: 0 <= i < length ==> Plain(source[i])
      invariant target[..length] == source[..length] && target[length..] == old(target[..])[length..]
    {
      var c := source[length];
      if length >= 240 || !Plain(c) { return false; }
      ghost var front, back := target[..length], target[length..];
      target[length] := c;
      assert target[..length + 1] == front + [c] && target[length + 1..] == back[1..];
      assert source[..length + 1] == source[..length] + [c];
      assert old(target[..])[length..][1..] == old(target[..])[length + 1..];
      length := length + 1;
    }
    assert target[length - 1] == target[..length][length - 1] == source[length - 1];
    if target[length - 1] == 32 || target[length - 1] == 46 { return false; }
    ghost var tail := target[length..];
    target[length] := 0;
    ok := true;
    assert target[..] == target[..length] + [0] + target[length + 1..];
    assert target[length + 1..] == tail[1..];
  }

  // ---- texts ----

  /** The length a lead byte announces; 0 for none. */
  function LeadLength(b: byte): (n: nat)
    ensures n <= 4
  {
    if b < 0x80 then 1 else if 0xc0 <= b < 0xe0 then 2 else if 0xe0 <= b < 0xf0 then 3
    else if 0xf0 <= b < 0xf8 then 4 else 0
  }

  predicate Continued(s: Text, n: nat) {
    n <= |s| && forall j :: 1 <= j < n ==> 0x80 <= s[j] < 0xc0
  }

  /** How many bytes of whole sequences go into a buffer of `room` bytes with a terminator. */
  function Taken(s: Text, room: nat): (n: nat)
    ensures n <= |s| && (room > 0 ==> n < room)
  {
    if s == [] || room <= 1 then 0
    else
      var n := LeadLength(s[0]);
      if n == 0 || n >= room || !Continued(s, n) then 0 else n + Taken(s[n..], room - n)
  }

  function Kept(s: Text, room: nat): (r: Text)
    requires room > 0
    ensures |r| < room
  {
    s[..Taken(s, room)]
  }

  /**
    A C string in memory, with its terminator at |text|. Two bytes behind it can be read; nothing is known
    of them.
   */
  ghost predicate Holds(memory: Text, text: Text) {
    |text| + 2 < |memory| && memory[..|text|] == text && memory[|text|] == 0 && 0 !in text
  }

  lemma {:induction false} HeldBytes(memory: Text, text: Text)
    requires Holds(memory, text)
    ensures |text| + 2 < |memory| && forall k :: 0 <= k <= |text| ==> (memory[k] == 0 <==> k == |text|)
    ensures forall k :: 0 <= k < |text| ==> memory[k] == text[k]
  {
    assert forall k :: 0 <= k < |text| ==> memory[k] == memory[..|text|][k] && text[k] in text;
  }

  /** Looks at every announced byte, also behind a failure; `furthest` is the last position it read. */
  method SequenceFollows(memory: Text, i: nat, length: nat, ghost text: Text) returns (good: bool, ghost furthest: nat)
    requires Holds(memory, text) && i < |text| && 1 <= length <= 4
    ensures good == Continued(text[i..], length) && furthest == i + length - 1
  {
    HeldBytes(memory, text);
    good, furthest := true, i;
    for j := 1 to length
      invariant good == Continued(text[i..], j) && furthest == i + j - 1
    {
      if memory[i + j] == 0 || memory[i + j] < 0x80 || memory[i + j] >= 0xc0 { good := false; }
      furthest := i + j;
    }
  }

  lemma {:induction false} TakenStep(s: Text, i: nat, room: nat)
    requires i < |s| && room > 1
    ensures var n := LeadLength(s[i]);
            Taken(s[i..], room) == if n == 0 || n >= room || !Continued(s[i..], n) then 0 else n + Taken(s[i + n..], room - n)
  {
    hide LeadLength, Continued;
    var n := LeadLength(s[i]);
    if n <= |s[i..]| { assert s[i..][n..] == s[i + n..]; }
  }

  method PutRun(out: array<byte>, source: Text, i: nat, length: nat)
    requires i + length <= |source| && i + length <= out.Length && out[..i] == source[..i]
    modifies out
    ensures out[..i + length] == source[..i + length] && out[i + length..] == old(out[..])[i + length..]
  {
    for j := 0 to length
      invariant out[..i + j] == source[..i + j] && out[i + j..] == old(out[..])[i + j..]
    {
      ghost var front, back := out[..i + j], out[i + j..];
      out[i + j] := source[i + j];
      assert out[..i + j + 1] == front + [source[i + j]] && out[i + j + 1..] == back[1..];
    }
  }

  /** The string as the source's pointer sees it. */
  method InMemory(text: CText) returns (memory: Text)
    ensures Holds(memory, text)
  {
    var behind: byte, next: byte := *, *;
    memory := text + [0, behind, next];
  }

  /** The sequence at i is looked at and announces two bytes or more behind the terminator. */
  predicate PastAt(text: Text, i: nat, room: nat) {
    i < |text| && LeadLength(text[i]) > 0 && |text| + 1 < i + LeadLength(text[i]) < room
  }

  /** The first sequence that is not whole does. */
  predicate ReadsPast(text: Text, room: nat) { PastAt(text, Taken(text, room), room) }

  /** The length of the next sequence to copy, or 0 to stop. */
  method NextSequence(memory: Text, i: nat, room: nat, ghost text: Text) returns (n: nat, ghost furthest: nat)
    requires Holds(memory, text) && i < |text| && i + 1 < room
    ensures n == 0 ==> Taken(text[i..], room - i) == 0 && (furthest > |text| <==> PastAt(text, i, room))
    ensures n > 0 ==> i + n <= |text| && i + n < room && furthest < i + n
    ensures n > 0 ==> Taken(text[i..], room - i) == n + Taken(text[i + n..], room - i - n)
  {
    hide LeadLength, Continued, Taken, Holds;
    HeldBytes(memory, text);
    TakenStep(text, i, room - i);
    n, furthest := LeadLength(memory[i]), i;
    if n == 0 || i + n >= room { return 0, i; }
    var good;
    good, furthest := SequenceFollows(memory, i, n, text);
    if good { ContinuedFits(text[i..], n); } else { n := 0; }
  }

  lemma {:induction false} NothingTaken(s: Text, i: nat, room: nat)
    requires i <= |s| && i < room && (i == |s| || i + 1 >= room)
    ensures Taken(s[i..], room - i) == 0 && !PastAt(s, i, room)
  {
  }

  /** The copying loop. */
  method CopyRuns(out: array<byte>, memory: Text, ghost source: CText) returns (i: nat, ghost furthest: nat)
    requires out.Length > 0 && Holds(memory, source)
    modifies out
    ensures i == Taken(source, out.Length) && out[..i] == memory[..i] && out[i..] == old(out[..])[i..]
    ensures furthest > |source| <==> PastAt(source, i, out.Length)
  {
    hide Taken, Holds, PastAt;
    HeldBytes(memory, source);
    ghost var was := out[..];
    var n: nat := 1;
    i, furthest := 0, 0;
    assert source[0..] == source;
    while n > 0 && memory[i] != 0 && i + 1 < out.Length
      invariant 0 <= i <= |source| && i < out.Length
      invariant Taken(source, out.Length) == i + Taken(source[i..], out.Length - i)
      invariant n == 0 ==> Taken(source[i..], out.Length - i) == 0
      invariant n == 0 ==> (furthest > |source| <==> PastAt(source, i, out.Length))
      invariant n > 0 ==> furthest <= i
      invariant out[..i] == memory[..i] && out[i..] == was[i..]
      decreases n > 0, |source| - i
    {
      n, furthest := NextSequence(memory, i, out.Length, source);
      if n > 0 {
        TailOfTail(out[..], was, i, n);
        PutRun(out, memory, i, n);
        i := i + n;
      }
    }
    if n > 0 { NothingTaken(source, i, out.Length); }
  }

  lemma {:induction false} TailOfTail(a: Text, b: Text, i: nat, n: nat)
    requires i + n <= |a| == |b| && a[i..] == b[i..]
    ensures a[i + n..] == b[i + n..]
  {
    assert a[i + n..] == a[i..][n..] && b[i + n..] == b[i..][n..];
  }

  /**
    Copies the whole sequences that fit, and terminates. `furthest` is the last position read, which is
    behind the terminator exactly for a text that ends in a sequence cut short by two bytes or more.
   */
  method CopyText(out: array<byte>, memory: Text, ghost source: CText) returns (ghost furthest: nat)
    requires out.Length > 0 && Holds(memory, source)
    modifies out
    ensures out[..] == Kept(source, out.Length) + [0] + old(out[..])[|Kept(source, out.Length)| + 1..]
    ensures furthest > |source| <==> ReadsPast(source, out.Length)
  {
    hide Taken, PastAt;
    ghost var was := out[..];
    var i;
    i, furthest := CopyRuns(out, memory, source);
    assert memory[..i] == memory[..|source|][..i] == source[..i];
    TailOfTail(out[..], was, i, 1);
    ghost var tail := out[i + 1..];
    out[i] := 0;
    assert out[..] == out[..i] + [0] + out[i + 1..];
    assert out[i + 1..] == tail;
  }

  // ---- where copying reads ----

  /** Made of sequences that are there in full. */
  predicate Whole(s: Text) {
    s == [] || var n := LeadLength(s[0]); n > 0 && Continued(s, n) && Whole(s[n..])
  }

  lemma {:induction false} WholeStops(s: Text, room: nat)
    requires Whole(s)
    ensures var i := Taken(s, room); i < |s| ==> i + LeadLength(s[i]) >= room
  {
    hide LeadLength, Continued;
    if s != [] {
      var n := LeadLength(s[0]);
      ContinuedFits(s, n);
      if room > 1 && n < room {
        WholeStops(s[n..], room - n);
        var i := Taken(s[n..], room - n);
        assert i < |s[n..]| ==> s[n..][i] == s[n + i];
      }
    }
  }

  /** Copying a text of whole sequences never reads behind its terminator. */
  lemma {:induction false} WholeTextsReadInside(s: Text, room: nat)
    requires Whole(s)
    ensures !ReadsPast(s, room)
  {
    hide Whole, Taken, LeadLength;
    WholeStops(s, room);
  }

  /** What was copied once is whole, so the title that a display name is made of is read inside its buffer. */
  lemma {:induction false} KeptIsWhole(s: Text, room: nat)
    requires room > 0
    ensures Whole(Kept(s, room))
  {
    if s != [] && room > 1 {
      var n := LeadLength(s[0]);
      if n != 0 && n < room && Continued(s, n) {
        KeptIsWhole(s[n..], room - n);
        var kept := Kept(s, room);
        assert kept[n..] == Kept(s[n..], room - n);
        assert forall j :: 0 <= j < n ==> kept[j] == s[j];
      }
    }
  }

  lemma {:induction false} TitleIsReadInside(s: Text)
    ensures !ReadsPast(Kept(s, NAME_SIZE), SAFE_TITLE)
  {
    hide Kept, ReadsPast, Whole;
    KeptIsWhole(s, NAME_SIZE);
    WholeTextsReadInside(Kept(s, NAME_SIZE), SAFE_TITLE);
  }

  lemma {:induction false} EncodedScalarIsWhole(c: Scalar, rest: Text)
    ensures var e := EncodeScalar(c) + rest;
            LeadLength(e[0]) == |EncodeScalar(c)| && Continued(e, |EncodeScalar(c)|) && e[|EncodeScalar(c)|..] == rest
  {
    var e := EncodeScalar(c) + rest;
    assert forall i :: 0 <= i < |EncodeScalar(c)| ==> e[i] == EncodeScalar(c)[i];
  }

  /** Well-formed UTF-8 is whole. */
  lemma {:induction false} EncodedIsWhole(cs: seq<Scalar>)
    ensures Whole(Encode(cs))
  {
    hide EncodeScalar, LeadLength, Continued;
    if cs != [] {
      EncodedIsWhole(cs[1..]);
      EncodedScalarIsWhole(cs[0], Encode(cs[1..]));
    }
  }

  /** A lone four-byte lead makes the copy read two bytes behind the terminator. */
  lemma {:induction false} LoneLeadReadsPast(room: nat)
    requires room > 4
    ensures ReadsPast([0xf0], room)
  {
    assert !Continued([0xf0], 4);
  }

  lemma {:induction false} ContinuedFits(s: Text, n: nat)
    requires Continued(s, n)
    ensures n <= |s|
  {
  }

  // ---- display names ----

  function Safe(c: byte): (r: byte)
    ensures Plain(r)
  {
    if !Plain(c) || c in {60, 62, 34, 124, 63, 42} then 95 else c
  }

  function Sanitized(s: Text): (r: Text)
    ensures |r| == |s| && forall i :: 0 <= i < |r| ==> Plain(r[i])
  {
    seq(|s|, i requires 0 <= i < |s| => Safe(s[i]))
  }

  /** The length without trailing spaces and dots. */
  function Trimmed(s: Text): (n: nat)
    ensures n <= |s|
  {
    if s == [] || (s[|s| - 1] != 32 && s[|s| - 1] != 46) then |s| else Trimmed(s[..|s| - 1])
  }

  /** The position of the last dot, or the length if there is none. */
  function LastDot(s: Text): (n: nat)
    ensures n <= |s| && (n < |s| ==> s[n] == 46)
  {
    if s == [] then 0
    else if s[|s| - 1] == 46 then |s| - 1
    else
      var n := LastDot(s[..|s| - 1]);
      if n == |s| - 1 then |s| else n
  }

  predicate Renames(name: Text, title: Text, kind: byte) {
    title != [] && (kind == MUSIC || kind == VIDEO) && LastDot(name) < |name|
  }

  function Stem(title: Text): (s: Text)
    ensures |s| < SAFE_TITLE && forall i :: 0 <= i < |s| ==> Plain(s[i])
  {
    Sanitized(Kept(title, SAFE_TITLE))
  }

  /** The extension as far as it fits behind `used` bytes. */
  function Extension(name: Text, used: nat): (s: Text)
    requires used < NAME_SIZE
    ensures used + |s| < NAME_SIZE
  {
    var ext := name[LastDot(name)..];
    if |ext| < NAME_SIZE - used then ext else ext[..NAME_SIZE - 1 - used]
  }

  /** The display buffer afterwards. With a title of dots and spaces it is only overwritten, not terminated. */
  function DisplayBuffer(b: Text, name: Text, title: Text, kind: byte): (r: Text)
    requires |b| == NAME_SIZE
    ensures |r| == NAME_SIZE
  {
    if !Renames(name, title, kind) then b
    else
      var stem := Stem(title);
      var over := stem + b[|stem|..];
      var used := Trimmed(stem);
      if used == 0 then over
      else
        var ext := Extension(name, used);
        stem[..used] + ext + [0] + over[used + |ext| + 1..]
  }

  /** Starts with a character, holds plain bytes and zeros only, and ends in a zero. */
  ghost predicate Tidy(b: Text) {
    |b| == NAME_SIZE && b[0] != 0 && b[NAME_SIZE - 1] == 0 && forall i :: 0 <= i < |b| ==> b[i] == 0 || Plain(b[i])
  }

  lemma {:induction false} OverwrittenIsTidy(b: Text, stem: Text)
    requires Tidy(b) && |stem| < SAFE_TITLE && forall i :: 0 <= i < |stem| ==> Plain(stem[i])
    ensures Tidy(stem + b[|stem|..])
  {
    var over := stem + b[|stem|..];
    assert |stem| > 0 ==> over[0] == stem[0];
    assert |stem| == 0 ==> over == b;
  }

  lemma {:induction false} ReplacedIsTidy(over: Text, head: Text)
    requires Tidy(over) && 0 < |head| < NAME_SIZE && forall i :: 0 <= i < |head| ==> Plain(head[i])
    ensures Tidy(head + [0] + over[|head| + 1..])
  {
    var r := head + [0] + over[|head| + 1..];
    assert r[0] == head[0];
    forall i | 0 <= i < |r| ensures r[i] == 0 || Plain(r[i]) {
      if i > |head| { assert r[i] == over[i]; }
    }
    if |head| == NAME_SIZE - 1 { assert r[NAME_SIZE - 1] == 0; } else { assert r[NAME_SIZE - 1] == over[NAME_SIZE - 1]; }
  }

  lemma {:induction false} ExtensionIsPlain(name: Text, used: nat)
    requires used < NAME_SIZE && forall i :: 0 <= i < |name| ==> Plain(name[i])
    ensures forall i :: 0 <= i < |Extension(name, used)| ==> Plain(Extension(name, used)[i])
  {
    hide LastDot;
    var ext := name[LastDot(name)..];
    forall i | 0 <= i < |Extension(name, used)| ensures Plain(Extension(name, used)[i]) {
      assert Extension(name, used)[i] == ext[i] == name[LastDot(name) + i];
    }
  }

  /** Renaming keeps the buffer tidy in every case, including the early returns. */
  lemma {:induction false} DisplayIsTidy(b: Text, name: Text, title: Text, kind: byte)
    requires Tidy(b) && forall i :: 0 <= i < |name| ==> Plain(name[i])
    ensures Tidy(DisplayBuffer(b, name, title, kind))
  {
    hide Stem, Trimmed, Extension, Tidy, Renames;
    TidySize(b);
    if Renames(name, title, kind) {
      var stem := Stem(title);
      var used := Trimmed(stem);
      OverwrittenIsTidy(b, stem);
      if used != 0 {
        ExtensionIsPlain(name, used);
        ReplacedIsTidy(stem + b[|stem|..], stem[..used] + Extension(name, used));
      }
    }
  }

  lemma {:induction false} TidySize(b: Text)
    requires Tidy(b)
    ensures |b| == NAME_SIZE
  {
  }

  lemma {:induction false} NameBufferIsTidy(s: Text)
    requires NameOk(s)
    ensures Tidy(NameBuffer(s)) && CString(NameBuffer(s)) == s
  {
    StringOfBuffer(s, Zeros(NAME_SIZE - |s|));
  }

  lemma {:induction false} StringOfBuffer(s: Text, rest: Text)
    requires (forall i :: 0 <= i < |s| ==> s[i] != 0) && rest != [] && rest[0] == 0
    ensures CString(s + rest) == s
  {
    if s == [] {
      assert s + rest == rest;
    } else {
      assert (s + rest)[1..] == s[1..] + rest;
      StringOfBuffer(s[1..], rest);
      assert s == [s[0]] + s[1..];
    }
  }

  /** A proper title shows as its trimmed stem with the name's extension. */
  lemma {:induction false} RenamedShows(b: Text, name: Text, title: Text, kind: byte)
    requires |b| == NAME_SIZE && forall i :: 0 <= i < |name| ==> Plain(name[i])
    requires Renames(name, title, kind) && Trimmed(Stem(title)) != 0
    ensures CString(DisplayBuffer(b, name, title, kind))
         == Stem(title)[..Trimmed(Stem(title))] + Extension(name, Trimmed(Stem(title)))
  {
    hide Stem, Trimmed, Extension, Renames;
    var stem := Stem(title);
    var used := Trimmed(stem);
    var head := stem[..used] + Extension(name, used);
    ExtensionIsPlain(name, used);
    var tail := [0] + (stem + b[|stem|..])[|head| + 1..];
    assert DisplayBuffer(b, name, title, kind) == head + tail;
    assert forall i :: 0 <= i < |head| ==> Plain(head[i]);
    StringOfBuffer(head, tail);
  }

  // ---- the same in place ----

  method FindDot(name: Text) returns (dot: nat)
    ensures dot == LastDot(name)
  {
    dot := |name|;
    var found := false;
    for i := 0 to |name|
      invariant dot == if found then LastDot(name[..i]) else |name|
      invariant found == (LastDot(name[..i]) < i)
    {
      assert name[..i + 1][..i] == name[..i];
      if name[i] == 46 {
        dot, found := i, true;
      }
    }
    assert name[..|name|] == name;
  }

  method WriteStem(display: array<byte>, title: CText) returns (used: nat)
    requires display.Length == NAME_SIZE
    modifies display
    ensures used == |Stem(title)| && display[..] == Stem(title) + old(display[..])[used..]
  {
    hide Kept, Safe;
    var safe := new byte[SAFE_TITLE];
    var memory := InMemory(title);
    var _ := CopyText(safe, memory, title);
    ghost var kept := Kept(title, SAFE_TITLE);
    KeptHasNoZero(title, SAFE_TITLE);
    assert safe[|kept|] == 0 && safe[..|kept|] == kept by {
      assert safe[..] == kept + [0] + safe[..][|kept| + 1..];
    }
    assert forall i :: 0 <= i < |kept| ==> safe[..|kept|][i] == safe[i] && safe[i] == kept[i] && kept[i] != 0;
    var p := 0;
    used := 0;
    while safe[p] != 0 && used + 8 < NAME_SIZE
      invariant p == used <= |kept|
      invariant display[..used] == Sanitized(kept)[..used] && display[used..] == old(display[..])[used..]
      decreases |kept| - p
      modifies display
    {
      ghost var front, back := display[..used], display[used..];
      display[used] := Safe(safe[p]);
      assert display[..used + 1] == front + [Safe(kept[p])] && display[used + 1..] == back[1..];
      used, p := used + 1, p + 1;
    }
    assert used == |kept|;
    assert display[..] == display[..used] + display[used..];
  }

  lemma {:induction false} KeptHasNoZero(s: CText, room: nat)
    requires room > 0
    ensures forall i :: 0 <= i < |Kept(s, room)| ==> Kept(s, room)[i] != 0
  {
    hide Taken;
    forall i | 0 <= i < |Kept(s, room)| ensures Kept(s, room)[i] != 0 {
      assert Kept(s, room)[i] == s[i] && s[i] in s;
    }
  }

  method TrimEnd(display: array<byte>, length: nat) returns (used: nat)
    requires length <= display.Length
    ensures used == Trimmed(display[..length])
  {
    used := length;
    while used > 0 && (display[used - 1] == 32 || display[used - 1] == 46)
      invariant used <= length && Trimmed(display[..used]) == Trimmed(display[..length])
    {
      assert display[..used][..used - 1] == display[..used - 1];
      used := used - 1;
    }
  }

  method AppendExtension(display: array<byte>, used: nat, name: Text, dot: nat)
    requires display.Length == NAME_SIZE && used < NAME_SIZE && dot == LastDot(name)
    modifies display
    ensures var ext := Extension(name, used);
            display[..] == old(display[..used]) + ext + [0] + old(display[..])[used + |ext| + 1..]
  {
    hide LastDot;
    ghost var was := display[..];
    var p, at := dot, used;
    while p < |name| && at + 1 < NAME_SIZE
      invariant dot <= p <= |name| && at == used + p - dot < NAME_SIZE
      invariant display[..at] == was[..used] + name[dot..p] && display[at..] == was[at..]
    {
      ghost var front, back := display[..at], display[at..];
      display[at] := name[p];
      assert display[..at + 1] == front + [name[p]] && display[at + 1..] == back[1..];
      assert name[dot..p] + [name[p]] == name[dot..p + 1];
      p, at := p + 1, at + 1;
    }
    ghost var ext := Extension(name, used);
    assert ext == name[dot..p];
    ghost var front, back := display[..at], display[at..];
    display[at] := 0;
    assert display[..at] == front && display[at + 1..] == back[1..];
    assert display[..] == display[..at] + [0] + display[at + 1..];
    assert was[at..][1..] == was[at + 1..];
  }

  /** Puts the title in place of the name, keeping the extension. */
  method DisplayName(display: array<byte>, name: Text, title: CText, kind: byte)
    requires display.Length == NAME_SIZE
    modifies display
    ensures display[..] == DisplayBuffer(old(display[..]), name, title, kind)
  {
    hide Stem, Trimmed, LastDot, Extension;
    ghost var was := display[..];
    if title == [] || (kind != MUSIC && kind != VIDEO) { return; }
    var dot := FindDot(name);
    if dot == |name| { return; }
    var length := WriteStem(display, title);
    ghost var over := display[..];
    assert display[..length] == Stem(title) by { assert display[..length] == over[..length]; }
    var used := TrimEnd(display, length);
    if used == 0 || used + 7 >= NAME_SIZE { return; }
    AppendExtension(display, used, name, dot);
    assert over[..used] == Stem(title)[..used];
  }

  // ---- the catalogue ----

  /** A library record; `size` 0 marks empty media. */
  datatype Media = Media(kind: int, id: Quad, name: CText, title: CText, artist: CText, album: CText,
                         created: CText, modified: CText, size: Quad, format: Short,
                         thumbWidth: Short, thumbHeight: Short, width: Word, height: Word)

  function Folder(handle: Word, name: Text): Entry
    requires |name| <= NAME_SIZE
  {
    Entry(0, 0, handle, NO_PARENT, FOLDER_FORMAT, FOLDER, NameBuffer(name), NameBuffer(name),
          Zeros(NAME_SIZE), Zeros(TEXT_SIZE), Zeros(TEXT_SIZE), Zeros(DATE_SIZE), Zeros(DATE_SIZE), 0, 0, 0, 0, 0)
  }

  /** "Photo", "Music" and "Video". */
  function Folders(): seq<Entry> {
    [Folder(1, [80, 104, 111, 116, 111]), Folder(2, [77, 117, 115, 105, 99]), Folder(3, [86, 105, 100, 101, 111])]
  }

  /** What adding demands. A name of more than 240 bytes is refused like a malformed one. */
  predicate CanAdd(count: nat, capacity: nat, m: Media) {
    && count < capacity && count < 0xffff_fffe && m.id != 0 && 0 <= m.kind <= SIDECAR as int
    && 0 < m.size <= 0xffff_fff3 && m.format != 0 && m.format != FOLDER_FORMAT && NameOk(m.name)
  }

  function Buffer(s: CText, size: nat): (b: Text)
    requires size > 0
    ensures |b| == size
  {
    Kept(s, size) + Zeros(size - |Kept(s, size)|)
  }

  function ThumbSize(m: Media): Word {
    if m.kind == 0 && m.thumbWidth != 0 && m.thumbHeight != 0
    then Dxt1.AnnouncedSize(m.thumbWidth, m.thumbHeight) % 0x1_0000_0000 else 0
  }

  function NewEntry(handle: Word, m: Media): Entry
    requires 0 <= m.kind <= SIDECAR as int && NameOk(m.name)
  {
    var title := Buffer(m.title, NAME_SIZE);
    Entry(m.id, m.size, handle, if m.kind == 0 then 1 else if m.kind == 1 then 2 else 3, m.format, m.kind,
          NameBuffer(m.name), DisplayBuffer(NameBuffer(m.name), m.name, CString(title), m.kind),
          title, Buffer(m.artist, TEXT_SIZE), Buffer(m.album, TEXT_SIZE),
          Buffer(m.created, DATE_SIZE), Buffer(m.modified, DATE_SIZE),
          ThumbSize(m), m.thumbWidth, m.thumbHeight, m.width, m.height)
  }

  /** Empty media is skipped; None is a failure. */
  function Added(entries: seq<Entry>, capacity: nat, m: Media): Option<seq<Entry>> {
    if m.size == 0 then Some(entries)
    else if !CanAdd(|entries|, capacity, m) then None
    else Some(entries + [NewEntry(|entries| + 1, m)])
  }

  method FilledText(source: CText, size: nat) returns (b: Text)
    requires size > 0
    ensures b == Buffer(source, size)
  {
    hide Kept;
    var out := new byte[size](_ => 0);
    var memory := InMemory(source);
    var _ := CopyText(out, memory, source);
    b := out[..];
    ghost var kept := Kept(source, size);
    assert b == kept + Zeros(size - |kept|);
  }

  method FilledNames(m: Media, title: CText) returns (ok: bool, name: Text, display: Text)
    ensures ok == NameOk(m.name)
    ensures ok && 0 <= m.kind <= SIDECAR as int ==>
              name == NameBuffer(m.name) && display == DisplayBuffer(NameBuffer(m.name), m.name, title, m.kind)
  {
    hide DisplayBuffer;
    name, display := [], [];
    var n, d := new byte[NAME_SIZE](_ => 0), new byte[NAME_SIZE](_ => 0);
    ok := CopyName(n, m.name);
    if !ok { return; }
    ok := CopyName(d, m.name);
    assert n[..] == NameBuffer(m.name) && d[..] == NameBuffer(m.name);
    if 0 <= m.kind <= SIDECAR as int {
      DisplayName(d, m.name, title, m.kind);
    }
    name, display := n[..], d[..];
  }

  class Catalogue {
    var entries: seq<Entry>
    const capacity: nat

    /** The three folders, which need room. */
    constructor (capacity: nat)
      requires capacity >= 3
      ensures entries == Folders() && this.capacity == capacity
    {
      entries, this.capacity := Folders(), capacity;
    }

    method AddEntry(m: Media) returns (ok: bool)
      modifies this`entries
      ensures var after := Added(old(entries), capacity, m);
              ok == after.Some? && entries == if ok then after.value else old(entries)
    {
      hide Buffer, DisplayBuffer, NameBuffer, NameOk, CString;
      if m.size == 0 { return true; }
      if |entries| >= capacity || |entries| >= 0xffff_fffe || m.id == 0 || m.kind < 0 || m.kind > SIDECAR as int ||
         m.size > 0xffff_fff3 || m.format == 0 || m.format == FOLDER_FORMAT { return false; }
      var title := FilledText(m.title, NAME_SIZE);
      var named, name, display := FilledNames(m, CString(title));
      if !named { return false; }
      var artist := FilledText(m.artist, TEXT_SIZE);
      var album := FilledText(m.album, TEXT_SIZE);
      var created := FilledText(m.created, DATE_SIZE);
      var modified := FilledText(m.modified, DATE_SIZE);
      entries := entries + [Entry(m.id, m.size, |entries| + 1, if m.kind == 0 then 1 else if m.kind == 1 then 2 else 3,
        m.format, m.kind, name, display, title, artist, album, created, modified, ThumbSize(m),
        m.thumbWidth, m.thumbHeight, m.width, m.height)];
      ok := true;
    }
  }
}
