/**
  `clock`, `milliseconds` and `xml_samples` of src/desktop/subtitle_formats/build_vita_m4t.py: the
  timeline is cut into chunks whose TTML document fits a byte limit. The document itself is the
  parameter `render`, any function from clipped cues to bytes.
 */
module SubtitleChunks {
  import opened Bytes
  import opened Strings
  import opened SegmentIndex
  import opened M4tFile

  // ---- clock values ----

  const COLON: byte := 58
  const POINT: byte := 46
  const ZERO: byte := 48

  function Padded(n: nat, width: nat): Text {
    Zeros(width - |Decimal(n)|) + Decimal(n)
  }

  function Zeros(k: int): Text {
    if k <= 0 then [] else [ZERO] + Zeros(k - 1)
  }

  function Clock(ms: nat): Text {
    var seconds, fraction := ms / 1000, ms % 1000;
    var minutes, s := seconds / 60, seconds % 60;
    var hours, m := minutes / 60, minutes % 60;
    Join([Padded(hours, 2), Padded(m, 2), Join([Padded(s, 2), Padded(fraction, 3)], POINT)], COLON)
  }

  predicate IsDigit(b: byte) { 48 <= b <= 57 }

  function IntFrom(s: Text, value: nat): Option<nat> {
    if s == [] then Some(value)
    else if !IsDigit(s[0]) then None
    else IntFrom(s[1..], value * 10 + (s[0] - 48))
  }

  /** `int` on ASCII digits; None stands for its ValueError. */
  function ParseInt(s: Text): Option<nat> {
    if s == [] then None else IntFrom(s, 0)
  }

  function Milliseconds(clock: Text): Option<nat> {
    var parts := Split(clock, COLON);
    if |parts| != 3 then None else
      var seconds := Split(parts[2], POINT);
      if |seconds| != 2 then None else
        var hours :- ParseInt(parts[0]);
        var minutes :- ParseInt(parts[1]);
        var whole :- ParseInt(seconds[0]);
        var fraction :- ParseInt(seconds[1]);
        Some(((hours * 60 + minutes) * 60 + whole) * 1000 + fraction)
  }

  predicate AllDigits(s: Text) { forall i :: 0 <= i < |s| ==> IsDigit(s[i]) }

  lemma {:induction false} IntFromConcat(a: Text, b: Text, value: nat)
    ensures IntFrom(a + b, value) == match IntFrom(a, value) case None => None case Some(v) => IntFrom(b, v)
  {
    if a == [] {
      assert a + b == b;
    } else {
      assert (a + b)[1..] == a[1..] + b;
      if IsDigit(a[0]) {
        IntFromConcat(a[1..], b, value * 10 + (a[0] - 48));
      }
    }
  }

  lemma {:induction false} DecimalReads(n: nat)
    ensures IntFrom(Decimal(n), 0) == Some(n) && Decimal(n) != [] && AllDigits(Decimal(n))
  {
    var digit: Text := [48 + n % 10];
    assert IntFrom(digit, n / 10) == IntFrom(digit[1..], n / 10 * 10 + n % 10);
    if n >= 10 {
      DecimalReads(n / 10);
      IntFromConcat(Decimal(n / 10), digit, 0);
    }
  }

  lemma {:induction false} ZerosRead(k: int)
    ensures IntFrom(Zeros(k), 0) == Some(0) && AllDigits(Zeros(k))
  {
    if k > 0 {
      ZerosRead(k - 1);
      assert Zeros(k)[1..] == Zeros(k - 1);
    }
  }

  lemma {:induction false} PaddedReads(n: nat, width: nat)
    ensures ParseInt(Padded(n, width)) == Some(n)
    ensures AllDigits(Padded(n, width)) && COLON !in Padded(n, width) && POINT !in Padded(n, width)
  {
    ZerosRead(width - |Decimal(n)|);
    DecimalReads(n);
    IntFromConcat(Zeros(width - |Decimal(n)|), Decimal(n), 0);
  }

  /** Every clock value reads back to the same millisecond. */
  lemma {:induction false} ClockRoundTrip(ms: nat)
    ensures Milliseconds(Clock(ms)) == Some(ms)
  {
    hide Padded, ParseInt, Join, Split;
    var seconds, fraction := ms / 1000, ms % 1000;
    var minutes, s := seconds / 60, seconds % 60;
    var hours, m := minutes / 60, minutes % 60;
    PaddedReads(hours, 2);
    PaddedReads(m, 2);
    PaddedReads(s, 2);
    PaddedReads(fraction, 3);
    var tail := [Padded(s, 2), Padded(fraction, 3)];
    SplitJoin(tail, POINT);
    JoinAvoids(tail, POINT, COLON);
    SplitJoin([Padded(hours, 2), Padded(m, 2), Join(tail, POINT)], COLON);
  }

  // ---- cues and clipping ----

  datatype Cue = Cue(begin: Text, finish: Text, text: Text, top: bool)

  predicate Timed(cue: Cue) { Milliseconds(cue.begin).Some? && Milliseconds(cue.finish).Some? }

  predicate AllTimed(cues: seq<Cue>) { forall i :: 0 <= i < |cues| ==> Timed(cues[i]) }

  function Begin(cue: Cue): nat requires Timed(cue) { Milliseconds(cue.begin).value }

  function Finish(cue: Cue): nat requires Timed(cue) { Milliseconds(cue.finish).value }

  function Max(a: nat, b: nat): nat { if a < b then b else a }

  function Min(a: nat, b: nat): nat { if b < a then b else a }

  predicate Touches(cue: Cue, start: nat, end: nat)
    requires Timed(cue)
  {
    Begin(cue) < end && Finish(cue) > start
  }

  function ClipCue(cue: Cue, start: nat, end: nat): Cue
    requires Timed(cue)
  {
    Cue(Clock(Max(Begin(cue), start)), Clock(Min(Finish(cue), end)), cue.text, cue.top)
  }

  /** The cues of a chunk, in their order, clipped to it. */
  function Clip(cues: seq<Cue>, start: nat, end: nat): seq<Cue>
    requires AllTimed(cues)
  {
    if cues == [] then []
    else
      var init, last := cues[..|cues| - 1], cues[|cues| - 1];
      Clip(init, start, end) + if Touches(last, start, end) then [ClipCue(last, start, end)] else []
  }

  /** What is on screen at instant t, in order. */
  function Showing(cues: seq<Cue>, t: nat): seq<(Text, bool)>
    requires AllTimed(cues)
  {
    if cues == [] then []
    else
      var init, last := cues[..|cues| - 1], cues[|cues| - 1];
      Showing(init, t) + if Begin(last) <= t < Finish(last) then [(last.text, last.top)] else []
  }

  lemma {:induction false} ClipCueTimes(cue: Cue, start: nat, end: nat)
    requires Timed(cue)
    ensures var c := ClipCue(cue, start, end);
            Timed(c) && Begin(c) == Max(Begin(cue), start) && Finish(c) == Min(Finish(cue), end)
  {
    hide Clock, Milliseconds;
    ClockRoundTrip(Max(Begin(cue), start));
    ClockRoundTrip(Min(Finish(cue), end));
  }

  lemma {:induction false} ClipIsTimed(cues: seq<Cue>, start: nat, end: nat)
    requires AllTimed(cues)
    ensures AllTimed(Clip(cues, start, end))
  {
    if cues != [] {
      ClipIsTimed(cues[..|cues| - 1], start, end);
      ClipCueTimes(cues[|cues| - 1], start, end);
    }
  }

  /** Inside a chunk, clipping changes nothing that is shown. */
  lemma {:induction false} ClipShowsTheSame(cues: seq<Cue>, start: nat, end: nat, t: nat)
    requires AllTimed(cues) && start <= t < end
    ensures AllTimed(Clip(cues, start, end))
    ensures Showing(Clip(cues, start, end), t) == Showing(cues, t)
  {
    hide Timed, Begin, Finish, ClipCue, Milliseconds;
    ClipIsTimed(cues, start, end);
    if cues != [] {
      var init, last := cues[..|cues| - 1], cues[|cues| - 1];
      ClipShowsTheSame(init, start, end, t);
      if Touches(last, start, end) {
        var clipped := ClipCue(last, start, end);
        ClipCueTimes(last, start, end);
        var all := Clip(cues, start, end);
        assert all[..|all| - 1] == Clip(init, start, end) && all[|all| - 1] == clipped;
        assert clipped.text == last.text && clipped.top == last.top by { ClipCueText(last, start, end); }
      } else {
        assert Clip(cues, start, end) == Clip(init, start, end);
        assert Showing(cues, t) == Showing(init, t) + [];
      }
    }
  }

  lemma {:induction false} ClipCueText(cue: Cue, start: nat, end: nat)
    requires Timed(cue)
    ensures ClipCue(cue, start, end).text == cue.text && ClipCue(cue, start, end).top == cue.top
  {
  }

  // ---- the loops ----

  /** The document of one chunk, with the newline the source appends. */
  function Document(cues: seq<Cue>, start: nat, end: nat, render: seq<Cue> -> Text): Text
    requires AllTimed(cues)
  {
    render(Clip(cues, start, end)) + [10]
  }

  /** The cue loop; None when a clock value is malformed. */
  method ClipLoop(cues: seq<Cue>, start: nat, end: nat) returns (piece: Option<seq<Cue>>)
    ensures piece == if AllTimed(cues) then Some(Clip(cues, start, end)) else None
  {
    hide Milliseconds, Clock;
    var kept: seq<Cue> := [];
    var i := 0;
    assert cues[..0] == [];
    while i < |cues|
      invariant 0 <= i <= |cues| && AllTimed(cues[..i])
      invariant kept == Clip(cues[..i], start, end)
    {
      var cue := cues[i];
      var begin, finish := Milliseconds(cue.begin), Milliseconds(cue.finish);
      if begin.None? || finish.None? {
        assert !Timed(cues[i]);
        return None;
      }
      assert cues[..i + 1][..i] == cues[..i];
      if begin.value < end && finish.value > start {
        kept := kept + [Cue(Clock(Max(begin.value, start)), Clock(Min(finish.value, end)), cue.text, cue.top)];
      }
      i := i + 1;
    }
    assert cues[..i] == cues;
    return Some(kept);
  }

  /** A window the halving can end on whose document still exceeds the limit. */
  predicate TooDense(cues: seq<Cue>, start: nat, end: nat, limit: nat, render: seq<Cue> -> Text)
    requires AllTimed(cues)
  {
    start < end <= start + 40 && |Document(cues, start, end, render)| > limit
  }

  datatype Outcome<T> = Done(value: T) | Malformed | Dense(start: nat, end: nat)

  /** The window lengths the halving tries, longest first. */
  function Windows(length: nat): (r: seq<nat>)
    ensures r != [] && r[0] == length && 0 < r[|r| - 1] <= Max(40, length)
    requires length > 0
    decreases length
  {
    if length <= 40 then [length] else [length] + Windows(Max(40, length / 2))
  }

  /** The first of the windows whose document fits. */
  function FirstFitting(cues: seq<Cue>, start: nat, windows: seq<nat>, limit: nat, render: seq<Cue> -> Text): (r: Option<nat>)
    requires AllTimed(cues)
    ensures r.Some? ==> r.value in windows && FitsIn(cues, start, r.value, limit, render)
    ensures r.None? ==> forall i :: 0 <= i < |windows| ==> !FitsIn(cues, start, windows[i], limit, render)
  {
    if windows == [] then None
    else if FitsIn(cues, start, windows[0], limit, render) then Some(windows[0])
    else
      assert forall i :: 0 < i < |windows| ==> windows[i] == windows[1..][i - 1];
      FirstFitting(cues, start, windows[1..], limit, render)
  }

  predicate FitsIn(cues: seq<Cue>, start: nat, window: nat, limit: nat, render: seq<Cue> -> Text)
    requires AllTimed(cues)
  {
    |Document(cues, start, start + window, render)| <= limit
  }

  lemma {:induction false} WindowsShrink(length: nat, w: nat)
    requires length > 0 && w in Windows(length)
    ensures 0 < w <= length && (w < length ==> 40 <= w)
    decreases length
  {
    if length > 40 && w != length { WindowsShrink(Max(40, length / 2), w); }
  }

  lemma {:induction false} FirstFittingStep(cues: seq<Cue>, start: nat, length: nat, limit: nat, render: seq<Cue> -> Text)
    requires AllTimed(cues) && length > 0
    ensures FirstFitting(cues, start, Windows(length), limit, render) ==
              if FitsIn(cues, start, length, limit, render) then Some(length)
              else if length <= 40 then None
              else FirstFitting(cues, start, Windows(Max(40, length / 2)), limit, render)
  {
    hide FitsIn, AllTimed;
    if length > 40 {
      assert ([length] + Windows(Max(40, length / 2)))[1..] == Windows(Max(40, length / 2));
    } else {
      assert [length][1..] == [];
    }
  }

  /** The halving loop finds the first window that fits, or none does. */
  method FitChunk(cues: seq<Cue>, start: nat, first: nat, limit: nat, render: seq<Cue> -> Text)
    returns (r: Outcome<(Text, nat)>)
    requires start < first
    ensures r.Malformed? <==> !AllTimed(cues)
    ensures AllTimed(cues) ==>
              var fit := FirstFitting(cues, start, Windows(first - start), limit, render);
              && (r.Dense? <==> fit.None?)
              && (r.Done? ==> fit == Some(r.value.1 - start) && start < r.value.1
                              && r.value.0 == Document(cues, start, r.value.1, render))
    ensures r.Dense? ==> r.start == start && r.end <= first && TooDense(cues, start, r.end, limit, render)
  {
    hide Windows, FirstFitting, AllTimed, Clip;
    var end := first;
    while true
      invariant start < end <= first
      invariant AllTimed(cues) ==>
                  FirstFitting(cues, start, Windows(end - start), limit, render)
                  == FirstFitting(cues, start, Windows(first - start), limit, render)
      decreases end - start
    {
      var piece := ClipLoop(cues, start, end);
      if piece.None? { return Malformed; }
      FirstFittingStep(cues, start, end - start, limit, render);
      var xml := render(piece.value) + [10];
      if |xml| <= limit { return Done((xml, end)); }
      if end - start <= 40 { return Dense(start, end); }
      var half := (end - start) / 2;
      end := start + if half < 40 then 40 else half;
    }
  }

  datatype Limits = Limits(duration: nat, chunk: nat, bytes: nat)

  /** Where a chunk from `start` ends unless its document is too large. */
  function FullEnd(start: nat, limits: Limits): nat { Min(limits.duration, start + limits.chunk) }

  /** The window the generator must take at `start`, if any fits. */
  function Fitting(start: nat, cues: seq<Cue>, limits: Limits, render: seq<Cue> -> Text): Option<nat>
    requires AllTimed(cues)
  {
    if FullEnd(start, limits) <= start then None
    else FirstFitting(cues, start, Windows(FullEnd(start, limits) - start), limits.bytes, render)
  }

  /** A chunk is the first window that fits, and holds the clipped cues. */
  predicate GoodChunk(s: Sample, start: nat, cues: seq<Cue>, limits: Limits, render: seq<Cue> -> Text)
    requires AllTimed(cues)
  {
    Fitting(start, cues, limits, render) == Some(s.ms) && s.xml == Document(cues, start, start + s.ms, render)
  }

  /** So it is short and small, and was cut short only for its size. */
  lemma {:induction false} GoodChunkMeans(s: Sample, start: nat, cues: seq<Cue>, limits: Limits, render: seq<Cue> -> Text)
    requires AllTimed(cues) && GoodChunk(s, start, cues, limits, render)
    ensures 0 < s.ms && start + s.ms <= FullEnd(start, limits) && |s.xml| <= limits.bytes
    ensures start + s.ms < FullEnd(start, limits) ==>
              s.ms >= 40 && |Document(cues, start, FullEnd(start, limits), render)| > limits.bytes
  {
    hide Windows, Document, AllTimed;
    var length := FullEnd(start, limits) - start;
    WindowsShrink(length, s.ms);
    FirstFittingStep(cues, start, length, limits.bytes, render);
  }

  /** Half of v, but at least 40, where v itself does not fit. */
  predicate HalfOf(cues: seq<Cue>, start: nat, v: nat, w: nat, limit: nat, render: seq<Cue> -> Text)
    requires AllTimed(cues)
  {
    w < v && w == Max(40, v / 2) && !FitsIn(cues, start, v, limit, render)
  }

  lemma {:induction false} HalvedFrom(cues: seq<Cue>, start: nat, length: nat, w: nat, limit: nat, render: seq<Cue> -> Text)
    requires AllTimed(cues) && length > 0 && w != length
    requires FirstFitting(cues, start, Windows(length), limit, render) == Some(w)
    ensures exists v: nat :: v <= length && HalfOf(cues, start, v, w, limit, render)
    decreases length
  {
    hide Windows, FirstFitting, AllTimed, FitsIn;
    FirstFittingStep(cues, start, length, limit, render);
    var half := Max(40, length / 2);
    if w == half {
      assert HalfOf(cues, start, length, w, limit, render);
    } else {
      HalvedFrom(cues, start, half, w, limit, render);
    }
  }

  /** A shortened chunk is half as long as a window whose document was too large, or 40 ms. */
  lemma {:induction false} ShortChunkIsHalf(s: Sample, start: nat, cues: seq<Cue>, limits: Limits, render: seq<Cue> -> Text)
    requires AllTimed(cues) && GoodChunk(s, start, cues, limits, render) && start + s.ms < FullEnd(start, limits)
    ensures exists v: nat :: start + v <= FullEnd(start, limits) && HalfOf(cues, start, v, s.ms, limits.bytes, render)
  {
    hide Windows, FirstFitting, AllTimed, Document, HalfOf, FitsIn;
    HalvedFrom(cues, start, FullEnd(start, limits) - start, s.ms, limits.bytes, render);
  }

  predicate Chunked(samples: seq<Sample>, cues: seq<Cue>, limits: Limits, render: seq<Cue> -> Text)
    requires AllTimed(cues)
  {
    forall i :: 0 <= i < |samples| ==> GoodChunk(samples[i], TotalMs(samples, i), cues, limits, render)
  }

  lemma {:induction false} TotalOfPrefix(samples: seq<Sample>, more: seq<Sample>, k: nat)
    requires k <= |samples|
    ensures TotalMs(samples + more, k) == TotalMs(samples, k)
  {
    if k > 0 {
      TotalOfPrefix(samples, more, k - 1);
    }
  }

  lemma {:induction false} TotalLast(samples: seq<Sample>, s: Sample)
    ensures TotalMs(samples + [s], |samples| + 1) == TotalMs(samples, |samples|) + s.ms
  {
    TotalOfPrefix(samples, [s], |samples|);
  }

  lemma {:induction false} ChunkedExtends(samples: seq<Sample>, s: Sample, cues: seq<Cue>, limits: Limits, render: seq<Cue> -> Text)
    requires AllTimed(cues) && Chunked(samples, cues, limits, render)
    requires GoodChunk(s, TotalMs(samples, |samples|), cues, limits, render)
    ensures Chunked(samples + [s], cues, limits, render)
    ensures TotalMs(samples + [s], |samples| + 1) == TotalMs(samples, |samples|) + s.ms
  {
    hide GoodChunk, AllTimed, TotalMs;
    var all := samples + [s];
    TotalLast(samples, s);
    forall i | 0 <= i < |all| ensures GoodChunk(all[i], TotalMs(all, i), cues, limits, render) {
      TotalOfPrefix(samples, [s], i);
    }
  }

  lemma {:induction false} ChunkLength(s: Sample, start: nat, cues: seq<Cue>, limits: Limits, render: seq<Cue> -> Text)
    requires AllTimed(cues) && GoodChunk(s, start, cues, limits, render)
    ensures 0 < s.ms && start + s.ms <= limits.duration
  {
    hide GoodChunk, AllTimed;
    GoodChunkMeans(s, start, cues, limits, render);
  }

  /** One round of the generator. */
  method NextChunk(cues: seq<Cue>, start: nat, limits: Limits, render: seq<Cue> -> Text) returns (r: Outcome<Sample>)
    requires limits.chunk > 0 && start < limits.duration
    ensures r.Malformed? <==> !AllTimed(cues)
    ensures r.Done? ==> GoodChunk(r.value, start, cues, limits, render)
    ensures AllTimed(cues) ==> (r.Dense? <==> Fitting(start, cues, limits, render).None?)
    ensures r.Dense? ==> r.start == start && r.end <= limits.duration && TooDense(cues, r.start, r.end, limits.bytes, render)
  {
    hide AllTimed, Document, Windows, FirstFitting;
    var fit := FitChunk(cues, start, FullEnd(start, limits), limits.bytes, render);
    match fit {
      case Malformed => return Malformed;
      case Dense(s, e) => return Dense(s, e);
      case Done(found) => return Done(Sample(found.0, found.1 - start));
    }
  }

  lemma {:induction false} NoChunks(cues: seq<Cue>, limits: Limits, render: seq<Cue> -> Text)
    ensures TotalMs([], 0) == 0 && (AllTimed(cues) ==> Chunked([], cues, limits, render))
  {
  }

  /**
    The whole generator. On success the chunks partition [0, duration) and each document holds the
    clipped cues of its chunk; it fails only on a malformed clock, or where 40 ms or less of cues
    exceed the limit: exactly if chunks lead up to an instant at which no window fits.
   */
  method XmlSamples(cues: seq<Cue>, limits: Limits, render: seq<Cue> -> Text)
    returns (r: Outcome<seq<Sample>>)
    requires limits.chunk > 0
    ensures r.Malformed? <==> limits.duration > 0 && !AllTimed(cues)
    ensures r.Done? && AllTimed(cues) ==>
              TotalMs(r.value, |r.value|) == limits.duration && Chunked(r.value, cues, limits, render)
    ensures r.Done? && !AllTimed(cues) ==> r.value == []
    ensures r.Dense? ==>
              AllTimed(cues) && r.end <= limits.duration && TooDense(cues, r.start, r.end, limits.bytes, render)
    ensures AllTimed(cues) ==> (r.Dense? <==> exists samples :: Stuck(samples, cues, limits, render))
  {
    hide *;
    var samples: seq<Sample> := [];
    var start := 0;
    NoChunks(cues, limits, render);
    while start < limits.duration
      invariant 0 <= start <= limits.duration
      invariant samples != [] ==> AllTimed(cues)
      invariant AllTimed(cues) ==>
                  TotalMs(samples, |samples|) == start && Chunked(samples, cues, limits, render)
      invariant samples == [] <==> start == 0
    {
      var next := NextChunk(cues, start, limits, render);
      match next {
        case Malformed => return Malformed;
        case Dense(s, e) =>
          StuckHere(samples, cues, limits, render);
          return Dense(s, e);
        case Done(sample) =>
          ChunkedExtends(samples, sample, cues, limits, render);
          ChunkLength(sample, start, cues, limits, render);
          samples := samples + [sample];
          start := start + sample.ms;
      }
    }
    if AllTimed(cues) { CompleteIsNotStuck(samples, cues, limits, render); }
    return Done(samples);
  }

  /** The chunks end before the duration, at an instant where no window fits. */
  ghost predicate Stuck(samples: seq<Sample>, cues: seq<Cue>, limits: Limits, render: seq<Cue> -> Text)
    requires AllTimed(cues)
  {
    var start := TotalMs(samples, |samples|);
    Chunked(samples, cues, limits, render) && start < limits.duration && Fitting(start, cues, limits, render).None?
  }

  lemma {:induction false} StuckHere(samples: seq<Sample>, cues: seq<Cue>, limits: Limits, render: seq<Cue> -> Text)
    requires AllTimed(cues) && Chunked(samples, cues, limits, render) && TotalMs(samples, |samples|) < limits.duration
    requires Fitting(TotalMs(samples, |samples|), cues, limits, render).None?
    ensures Stuck(samples, cues, limits, render)
  {
  }

  /** The chunks are determined: any two lists agree as far as both go. */
  lemma {:induction false} ChunksAreUnique(a: seq<Sample>, b: seq<Sample>, k: nat, cues: seq<Cue>, limits: Limits, render: seq<Cue> -> Text)
    requires AllTimed(cues) && Chunked(a, cues, limits, render) && Chunked(b, cues, limits, render)
    requires k <= |a| && k <= |b|
    ensures TotalMs(a, k) == TotalMs(b, k) && forall i :: 0 <= i < k ==> a[i] == b[i]
  {
    hide AllTimed, GoodChunk, Chunked, TotalMs;
    TotalSteps(a, k);
    TotalSteps(b, k);
    if k > 0 {
      ChunksAreUnique(a, b, k - 1, cues, limits, render);
      ChunkAt(a, k - 1, cues, limits, render);
      ChunkAt(b, k - 1, cues, limits, render);
      SameChunk(a[k - 1], b[k - 1], TotalMs(a, k - 1), cues, limits, render);
    }
  }

  lemma {:induction false} TotalSteps(samples: seq<Sample>, k: nat)
    requires k <= |samples|
    ensures TotalMs(samples, k) == if k == 0 then 0 else TotalMs(samples, k - 1) + samples[k - 1].ms
  {
  }

  lemma {:induction false} ChunkAt(samples: seq<Sample>, i: nat, cues: seq<Cue>, limits: Limits, render: seq<Cue> -> Text)
    requires AllTimed(cues) && Chunked(samples, cues, limits, render) && i < |samples|
    ensures GoodChunk(samples[i], TotalMs(samples, i), cues, limits, render)
  {
    hide AllTimed, GoodChunk, TotalMs;
  }

  lemma {:induction false} SameChunk(s: Sample, t: Sample, start: nat, cues: seq<Cue>, limits: Limits, render: seq<Cue> -> Text)
    requires AllTimed(cues) && GoodChunk(s, start, cues, limits, render) && GoodChunk(t, start, cues, limits, render)
    ensures s == t
  {
    hide Fitting, AllTimed, Document;
  }

  lemma {:induction false} TotalsGrow(samples: seq<Sample>, k: nat)
    requires k <= |samples|
    ensures TotalMs(samples, k) <= TotalMs(samples, |samples|)
    decreases |samples| - k
  {
    if k < |samples| { TotalsGrow(samples, k + 1); }
  }

  lemma {:induction false} CompleteIsNotStuck(samples: seq<Sample>, cues: seq<Cue>, limits: Limits, render: seq<Cue> -> Text)
    requires AllTimed(cues) && Chunked(samples, cues, limits, render) && TotalMs(samples, |samples|) >= limits.duration
    ensures forall other :: !Stuck(other, cues, limits, render)
  {
    hide AllTimed, Fitting, Document;
    forall other: seq<Sample> ensures !Stuck(other, cues, limits, render) {
      if Chunked(other, cues, limits, render) {
        if |samples| <= |other| {
          ChunksAreUnique(samples, other, |samples|, cues, limits, render);
          TotalsGrow(other, |samples|);
        } else {
          ChunksAreUnique(samples, other, |other|, cues, limits, render);
          assert GoodChunk(samples[|other|], TotalMs(samples, |other|), cues, limits, render);
        }
      }
    }
  }

  lemma {:induction false} ChunkOf(samples: seq<Sample>, k: nat, t: nat) returns (i: nat)
    requires k <= |samples| && t < TotalMs(samples, k)
    ensures i < k && TotalMs(samples, i) <= t < TotalMs(samples, i + 1)
  {
    if t >= TotalMs(samples, k - 1) {
      i := k - 1;
    } else {
      i := ChunkOf(samples, k - 1, t);
    }
  }

  /** At every instant of the timeline exactly the source cues are shown by the chunk that covers it. */
  lemma {:induction false} ChunksShowTheTimeline(samples: seq<Sample>, cues: seq<Cue>, limits: Limits, render: seq<Cue> -> Text, t: nat)
    requires AllTimed(cues) && Chunked(samples, cues, limits, render) && t < TotalMs(samples, |samples|)
    ensures exists i :: 0 <= i < |samples| && TotalMs(samples, i) <= t < TotalMs(samples, i + 1)
                        && var shown := Clip(cues, TotalMs(samples, i), TotalMs(samples, i + 1));
                           samples[i].xml == render(shown) + [10] && AllTimed(shown) && Showing(shown, t) == Showing(cues, t)
  {
    hide Showing, Clip, AllTimed;
    var i := ChunkOf(samples, |samples|, t);
    ClipShowsTheSame(cues, TotalMs(samples, i), TotalMs(samples, i + 1), t);
    assert GoodChunk(samples[i], TotalMs(samples, i), cues, limits, render);
  }

  /** The chunks' ticks add up to thirty per millisecond of the duration. */
  lemma {:induction false} ChunkTicks(samples: seq<Sample>, duration: nat)
    requires TotalMs(samples, |samples|) == duration
    ensures TicksBefore(samples, |samples|) == 30 * duration
  {
    TotalTicks(samples, |samples|);
  }
}
