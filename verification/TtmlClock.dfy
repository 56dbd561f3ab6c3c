/**
  The clock values of the chunks as a TTML player reads them (section 10.3.1 of the Timed Text Markup
  Language 1): the fraction counts by the position of its digits, not as a whole number.
 */
module TtmlClock {
  import opened Bytes
  import opened Strings
  import opened SegmentIndex
  import opened M4tFile
  import opened SubtitleChunks

  // ---- the player's reader ----

  function Digit(b: byte): nat requires IsDigit(b) { b as int - 48 }

  function Number(s: Text): nat
    requires AllDigits(s)
  {
    if s == [] then 0 else 10 * Number(s[..|s| - 1]) + Digit(s[|s| - 1])
  }

  function LeadingDigits(s: Text): (n: nat)
    ensures n <= |s| && AllDigits(s[..n]) && (n < |s| ==> !IsDigit(s[n]))
  {
    if s == [] || !IsDigit(s[0]) then 0
    else
      var n := LeadingDigits(s[1..]);
      assert forall i :: 0 < i <= n ==> s[i] == s[1..][i - 1];
      1 + n
  }

  /** Tenths, hundredths and thousandths of a second. */
  function Thousandths(s: Text): nat
    requires s != [] && AllDigits(s)
  {
    100 * Digit(s[0]) + (if |s| > 1 then 10 * Digit(s[1]) else 0) + (if |s| > 2 then Digit(s[2]) else 0)
  }

  /** h digits for the hours, two each for minutes and seconds, which stay below 60, and digits for the fraction. */
  predicate ClockShape(s: Text, h: nat) {
    && 2 <= h && h + 8 <= |s| && AllDigits(s[..h])
    && s[h] == COLON && IsDigit(s[h + 1]) && s[h + 1] < 54 && IsDigit(s[h + 2])
    && s[h + 3] == COLON && IsDigit(s[h + 4]) && s[h + 4] < 54 && IsDigit(s[h + 5])
    && s[h + 6] == POINT && AllDigits(s[h + 7..])
  }

  function ReadClock(s: Text): Option<nat> {
    var h := LeadingDigits(s);
    if !ClockShape(s, h) then None
    else
      var minutes := 10 * Digit(s[h + 1]) + Digit(s[h + 2]);
      var seconds := 10 * Digit(s[h + 4]) + Digit(s[h + 5]);
      Some(3_600_000 * Number(s[..h]) + 60_000 * minutes + 1000 * seconds + Thousandths(s[h + 7..]))
  }

  // ---- what the writer gives it ----

  lemma {:induction false} ZerosAre(k: nat)
    ensures |Zeros(k)| == k && forall i :: 0 <= i < k ==> Zeros(k)[i] == ZERO
  {
    if k > 0 { ZerosAre(k - 1); }
  }

  lemma {:induction false} PaddedTwo(n: nat)
    requires n < 100
    ensures Padded(n, 2) == [48 + n / 10, 48 + n % 10]
  {
    if n < 10 {
      assert Decimal(n) == [48 + n];
      ZerosAre(1);
      assert Zeros(1) == [ZERO];
    } else {
      assert Decimal(n / 10) == [48 + n / 10];
      assert Zeros(0) == [];
    }
  }

  lemma {:induction false} PaddedThree(n: nat)
    requires n < 1000
    ensures Padded(n, 3) == [48 + n / 100, 48 + n / 10 % 10, 48 + n % 10]
  {
    if n < 10 {
      assert Decimal(n) == [48 + n];
      ZerosAre(2);
      assert Zeros(2) == [ZERO, ZERO];
    } else if n < 100 {
      assert Decimal(n / 10) == [48 + n / 10];
      assert Decimal(n) == [48 + n / 10, 48 + n % 10];
      ZerosAre(1);
      assert Zeros(1) == [ZERO];
    } else {
      assert n / 10 / 10 == n / 100;
      assert Decimal(n / 100) == [48 + n / 100];
      assert Decimal(n / 10) == [48 + n / 100, 48 + n / 10 % 10];
      assert Zeros(0) == [];
    }
  }

  lemma {:induction false} NumberOfDecimal(n: nat)
    ensures AllDigits(Decimal(n)) && Number(Decimal(n)) == n
  {
    if n >= 10 {
      NumberOfDecimal(n / 10);
      assert Decimal(n)[..|Decimal(n)| - 1] == Decimal(n / 10);
    } else {
      assert Decimal(n)[..0] == [];
    }
  }

  lemma {:induction false} LeadingZeros(k: nat, s: Text)
    requires AllDigits(s) && AllDigits(Zeros(k))
    ensures AllDigits(Zeros(k) + s) && Number(Zeros(k) + s) == Number(s)
  {
    var all := Zeros(k) + s;
    ZerosAre(k);
    if s != [] {
      LeadingZeros(k, s[..|s| - 1]);
      assert all[..|all| - 1] == Zeros(k) + s[..|s| - 1];
    } else if k > 0 {
      ZerosAre(k - 1);
      LeadingZeros(k - 1, []);
      assert all[..k - 1] == Zeros(k - 1) + [];
    }
  }

  /** Hours have at least two digits, which give their number. */
  lemma {:induction false} HoursRead(n: nat)
    ensures |Padded(n, 2)| >= 2 && AllDigits(Padded(n, 2)) && Number(Padded(n, 2)) == n
  {
    hide Number, AllDigits;
    NumberOfDecimal(n);
    var k := 2 - |Decimal(n)|;
    ZerosRead(k);
    if k > 0 {
      ZerosAre(k);
      LeadingZeros(k, Decimal(n));
    } else {
      assert Zeros(k) + Decimal(n) == Decimal(n);
    }
  }

  lemma {:induction false} LeadingRun(a: Text, s: Text)
    requires AllDigits(a) && a <= s && |a| < |s| && !IsDigit(s[|a|])
    ensures LeadingDigits(s) == |a|
  {
    if a != [] {
      LeadingRun(a[1..], s[1..]);
      assert IsDigit(a[0]);
    }
  }

  /** The digits behind the hours. */
  function Tail(m: nat, s: nat, f: nat): (r: Text)
    requires m < 60 && s < 60 && f < 1000
    ensures |r| == 10
  {
    [COLON, 48 + m / 10, 48 + m % 10, COLON, 48 + s / 10, 48 + s % 10, POINT, 48 + f / 100, 48 + f / 10 % 10, 48 + f % 10]
  }

  lemma {:induction false} ClockIs(ms: nat)
    ensures Clock(ms) == Padded(ms / 3_600_000, 2) + Tail(ms / 60_000 % 60, ms / 1000 % 60, ms % 1000)
  {
    hide Padded;
    var seconds, f := ms / 1000, ms % 1000;
    var minutes, s := seconds / 60, seconds % 60;
    var hours, m := minutes / 60, minutes % 60;
    assert minutes == ms / 60_000 && hours == ms / 3_600_000;
    PaddedTwo(m);
    PaddedTwo(s);
    PaddedThree(f);
    var tail := [Padded(s, 2), Padded(f, 3)];
    assert Join(tail[1..], POINT) == tail[1];
    assert Join(tail, POINT) == [48 + s / 10, 48 + s % 10, POINT, 48 + f / 100, 48 + f / 10 % 10, 48 + f % 10];
    var parts := [Padded(hours, 2), Padded(m, 2), Join(tail, POINT)];
    assert parts[1..][1..] == [parts[2]];
    assert Join(parts[1..][1..], COLON) == parts[2];
    assert Join(parts[1..], COLON) == parts[1] + [COLON] + parts[2];
    assert Join(parts, COLON) == parts[0] + [COLON] + Join(parts[1..], COLON);
  }

  lemma {:induction false} TailShape(a: Text, m: nat, s: nat, f: nat)
    requires |a| >= 2 && AllDigits(a) && m < 60 && s < 60 && f < 1000
    ensures var c, h := a + Tail(m, s, f), |a|;
            && c[..h] == a && ClockShape(c, h) && c[h + 7..] == [48 + f / 100, 48 + f / 10 % 10, 48 + f % 10]
            && Digit(c[h + 1]) == m / 10 && Digit(c[h + 2]) == m % 10 && Digit(c[h + 4]) == s / 10 && Digit(c[h + 5]) == s % 10
  {
    var c, h := a + Tail(m, s, f), |a|;
    assert forall i :: 0 <= i < 10 ==> c[h + i] == Tail(m, s, f)[i];
    assert c[h + 7..] == [48 + f / 100, 48 + f / 10 % 10, 48 + f % 10];
  }

  lemma {:induction false} TailReads(a: Text, m: nat, s: nat, f: nat)
    requires |a| >= 2 && AllDigits(a) && m < 60 && s < 60 && f < 1000
    ensures ReadClock(a + Tail(m, s, f)) == Some(3_600_000 * Number(a) + 60_000 * m + 1000 * s + f)
  {
    TailShape(a, m, s, f);
    FractionReads(f);
    LeadingRun(a, a + Tail(m, s, f));
    hide Tail, AllDigits, Number, LeadingDigits, Thousandths, Digit;
  }

  /**
    Every clock value has two or more digits for the hours, two each for minutes and seconds, both below 60,
    and three for the fraction, and a player reads it as the millisecond it was written for.
   */
  lemma {:induction false} ClockReads(ms: nat)
    ensures var h := |Clock(ms)| - 10; h >= 2 && ClockShape(Clock(ms), h)
    ensures ReadClock(Clock(ms)) == Some(ms)
  {
    hide Clock, Padded, Number, ReadClock, ClockShape, Tail, AllDigits;
    var hours, m, s, f := ms / 3_600_000, ms / 60_000 % 60, ms / 1000 % 60, ms % 1000;
    ClockIs(ms);
    HoursRead(hours);
    TailShape(Padded(hours, 2), m, s, f);
    TailReads(Padded(hours, 2), m, s, f);
    Whole(ms);
  }

  lemma {:induction false} FractionReads(f: nat)
    requires f < 1000
    ensures Thousandths([48 + f / 100, 48 + f / 10 % 10, 48 + f % 10]) == f
  {
  }

  lemma {:induction false} Whole(ms: nat)
    ensures 3_600_000 * (ms / 3_600_000) + 60_000 * (ms / 60_000 % 60) + 1000 * (ms / 1000 % 60) + ms % 1000 == ms
  {
    var seconds := ms / 1000;
    var minutes := seconds / 60;
    assert minutes == ms / 60_000 && minutes / 60 == ms / 3_600_000;
  }

  // ---- what a player shows ----

  predicate Playable(cues: seq<Cue>) {
    forall i :: 0 <= i < |cues| ==> ReadClock(cues[i].begin).Some? && ReadClock(cues[i].finish).Some?
  }

  /** What a player shows at instant t, in order. */
  function Playing(cues: seq<Cue>, t: nat): seq<(Text, bool)>
    requires Playable(cues)
  {
    if cues == [] then []
    else
      var init, last := cues[..|cues| - 1], cues[|cues| - 1];
      Playing(init, t) + if ReadClock(last.begin).value <= t < ReadClock(last.finish).value then [(last.text, last.top)] else []
  }

  lemma {:induction false} ClippedReads(cue: Cue, start: nat, end: nat)
    requires Timed(cue)
    ensures var c := ClipCue(cue, start, end);
            Timed(c) && ReadClock(c.begin) == Some(Begin(c)) && ReadClock(c.finish) == Some(Finish(c))
  {
    hide Clock, Milliseconds, ReadClock;
    ClipCueTimes(cue, start, end);
    ClockReads(Max(Begin(cue), start));
    ClockReads(Min(Finish(cue), end));
  }

  /** On clipped cues the player and the tool itself agree. */
  lemma {:induction false} ClippedPlays(cues: seq<Cue>, start: nat, end: nat, t: nat)
    requires AllTimed(cues)
    ensures var shown := Clip(cues, start, end);
            AllTimed(shown) && Playable(shown) && Playing(shown, t) == Showing(shown, t)
  {
    hide Timed, Begin, Finish, ClipCue, Milliseconds, ReadClock, Touches;
    ClipIsTimed(cues, start, end);
    if cues != [] {
      var init, last := cues[..|cues| - 1], cues[|cues| - 1];
      ClippedPlays(init, start, end, t);
      var all := Clip(cues, start, end);
      if Touches(last, start, end) {
        ClippedReads(last, start, end);
        assert all[..|all| - 1] == Clip(init, start, end) && all[|all| - 1] == ClipCue(last, start, end);
      } else {
        assert all == Clip(init, start, end);
      }
    }
  }

  /** At every instant a TTML player shows, from the chunk that covers it, exactly the source cues. */
  lemma {:induction false} ChunksPlayTheTimeline(samples: seq<Sample>, cues: seq<Cue>, limits: Limits,
                                                 render: seq<Cue> -> Text, t: nat)
    requires AllTimed(cues) && Chunked(samples, cues, limits, render) && t < TotalMs(samples, |samples|)
    ensures exists i :: 0 <= i < |samples| && TotalMs(samples, i) <= t < TotalMs(samples, i + 1)
                        && var shown := Clip(cues, TotalMs(samples, i), TotalMs(samples, i + 1));
                           samples[i].xml == render(shown) + [10] && Playable(shown) && Playing(shown, t) == Showing(cues, t)
  {
    hide Showing, Clip, AllTimed, Playable, Playing, GoodChunk, Chunked;
    ChunksShowTheTimeline(samples, cues, limits, render, t);
    var i :| 0 <= i < |samples| && TotalMs(samples, i) <= t < TotalMs(samples, i + 1)
             && var shown := Clip(cues, TotalMs(samples, i), TotalMs(samples, i + 1));
                samples[i].xml == render(shown) + [10] && AllTimed(shown) && Showing(shown, t) == Showing(cues, t);
    ClippedPlays(cues, TotalMs(samples, i), TotalMs(samples, i + 1), t);
  }
}
