/**
  The wrapped lines are determined by the text: only one way of breaking it loses nothing, fits, and breaks
  no line before it has to.
 */
module CaptionFill {
  import opened CaptionWrap

  // ---- a prefix is never wider ----

  lemma {:induction false} PrefixWidth(a: Line, b: Line)
    requires a <= b
    ensures Width(a) <= Width(b)
  {
    hide Width;
    WidthConcat(a, b[|a|..]);
    assert b == a + b[|a|..];
  }

  /** The line of a prefix of a group is no wider than the line of the group. */
  lemma {:induction false} PrefixLine(g: seq<Token>, n: nat)
    requires n <= |g|
    ensures Width(LineOf(g[..n])) <= Width(LineOf(g))
    decreases |g| - n
  {
    hide Width, LineOf;
    if n == |g| {
      assert g[..n] == g;
    } else {
      PrefixLine(g, n + 1);
      LineMore(g[..n], g[n]);
      assert g[..n + 1] == g[..n] + [g[n]];
      NoWidth();
      NoLine();
      if n > 0 { PrefixWidth(LineOf(g[..n]), LineOf(g[..n + 1])); }
    }
  }

  // ---- the groups are determined ----

  lemma {:induction false} GroupedFirst(groups: seq<seq<Token>>)
    requires groups != []
    ensures Grouped(groups) == groups[0] + Grouped(groups[1..])
  {
    var n := |groups| - 1;
    if n == 0 {
      assert groups[..0] == [] && groups[1..] == [];
    } else {
      var front, last := groups[..n], groups[n];
      GroupedFirst(front);
      var middle := front[1..];
      GroupedMore(middle, last);
      assert groups[1..] == middle + [last];
      assert Grouped(groups) == Grouped(front) + last;
      hide Grouped;
      assert groups[0] + Grouped(middle) + last == groups[0] + (Grouped(middle) + last);
    }
  }

  /** What the groups have in common with the lines of a wrapped text. */
  ghost predicate Fitting(groups: seq<seq<Token>>) {
    forall i :: 0 <= i < |groups| ==> groups[i] != [] && Width(LineOf(groups[i])) <= MAX_COLUMNS
  }

  lemma {:induction false} BehindFirst(groups: seq<seq<Token>>)
    requires groups != [] && Filled(groups) && Fitting(groups)
    ensures Filled(groups[1..]) && Fitting(groups[1..])
  {
    hide WholeWords, Ends, LineOf, Width;
  }

  /** Inside a line that fits, nothing forces a break. */
  lemma {:induction false} LineGoesOn(g: seq<Token>, n: nat)
    requires 1 <= n < |g| && WholeWords(g) && Width(LineOf(g)) <= MAX_COLUMNS
    ensures !Ends(LineOf(g[..n]), g[n])
  {
    hide Width, LineOf;
    LineMore(g[..n], g[n]);
    assert g[..n + 1] == g[..n] + [g[n]];
    PrefixLine(g, n + 1);
  }

  lemma {:induction false} EndsAfterFirst(a: seq<seq<Token>>)
    requires a != [] && Filled(a)
    ensures |a[0]| <= |Grouped(a)| && a[0] == Grouped(a)[..|a[0]|]
    ensures |a[0]| < |Grouped(a)| ==> Ends(LineOf(a[0]), Grouped(a)[|a[0]|])
  {
    hide Ends, LineOf, WholeWords, Grouped;
    GroupedFirst(a);
    EmptyGrouped();
    if |a| > 1 {
      GroupedFirst(a[1..]);
      assert a[1..][0] == a[1] && Grouped(a[1..])[0] == a[1][0];
      assert Grouped(a)[|a[0]|] == a[0 + 1][0];
    } else {
      assert a[1..] == [];
    }
  }

  /** If one grouping had a shorter first line, that line was broken too early. */
  lemma {:induction false} FirstNotShorter(a: seq<seq<Token>>, b: seq<seq<Token>>)
    requires a != [] && b != [] && Filled(a) && Filled(b) && Fitting(a) && Fitting(b) && Grouped(a) == Grouped(b)
    ensures |a[0]| >= |b[0]|
  {
    hide Ends, LineOf, WholeWords, Grouped, Width;
    EndsAfterFirst(a);
    EndsAfterFirst(b);
    var n := |a[0]|;
    if n < |b[0]| {
      assert b[0][..n] == a[0] && b[0][n] == Grouped(a)[n];
      LineGoesOn(b[0], n);
    }
  }

  lemma {:induction false} EmptyGrouped()
    ensures Grouped([]) == []
  {
  }

  lemma {:induction false} GroupsAreUnique(a: seq<seq<Token>>, b: seq<seq<Token>>)
    requires Filled(a) && Filled(b) && Fitting(a) && Fitting(b) && Grouped(a) == Grouped(b)
    ensures a == b
  {
    hide Filled, Fitting, Grouped;
    if a == [] {
      NoneLeft(b);
    } else if b == [] {
      NoneLeft(a);
    } else {
      FirstNotShorter(a, b);
      FirstNotShorter(b, a);
      GroupedFirst(a);
      GroupedFirst(b);
      assert a[0] == Grouped(a)[..|a[0]|] == b[0];
      assert Grouped(a[1..]) == Grouped(a)[|a[0]|..] == Grouped(b[1..]);
      BehindFirst(a);
      BehindFirst(b);
      GroupsAreUnique(a[1..], b[1..]);
      assert a == [a[0]] + a[1..] && b == [b[0]] + b[1..];
    }
  }

  lemma {:induction false} NoneLeft(b: seq<seq<Token>>)
    requires Grouped([]) == Grouped(b) && Fitting(b)
    ensures b == []
  {
    if b != [] { GroupedFirst(b); }
  }

  /** The text alone determines the wrapped lines. */
  lemma {:induction false} WrappingIsUnique(text: Line, output: seq<Line>, groups: seq<seq<Token>>,
                                            other: seq<Line>, others: seq<seq<Token>>)
    requires LaidOut(output, groups) && Filled(groups) && Grouped(groups) == AllTokens(Words(text))
    requires LaidOut(other, others) && Filled(others) && Grouped(others) == AllTokens(Words(text))
    ensures output == other && groups == others
  {
    hide Filled, Grouped, LineOf, Width, AllTokens, Words;
    GroupsAreUnique(groups, others);
  }

  // ---- the pieces are determined as well ----

  /** Pieces of one word: none empty, all fitting, and none that could take the next character. */
  ghost predicate Longest(pieces: seq<Line>) {
    pieces == []
    || (&& pieces[0] != [] && Width(pieces[0]) <= MAX_COLUMNS && Longest(pieces[1..])
        && (|pieces| > 1 ==> Width(pieces[0] + [pieces[1][0]]) > MAX_COLUMNS))
  }

  lemma {:induction false} CutIsLongest(cur: Line, rest: Line)
    requires Width(cur) <= MAX_COLUMNS
    ensures Longest(Cut(cur, rest))
    ensures cur != [] ==> Cut(cur, rest) != [] && cur <= Cut(cur, rest)[0]
    decreases |rest|
  {
    hide Width;
    if rest != [] {
      WidthMore([], rest[0]);
      NoWidth();
      assert [] + [rest[0]] == [rest[0]];
      if cur != [] && Width(cur + [rest[0]]) > MAX_COLUMNS {
        CutIsLongest([rest[0]], rest[1..]);
        assert Cut(cur, rest)[1..] == Cut([rest[0]], rest[1..]);
      } else {
        CutIsLongest(cur + [rest[0]], rest[1..]);
      }
    }
  }

  lemma {:induction false} FlatFirst(pieces: seq<Line>)
    requires pieces != []
    ensures Flat(pieces) == pieces[0] + Flat(pieces[1..])
  {
    hide Flat;
    assert pieces == [pieces[0]] + pieces[1..];
    FlatConcat([pieces[0]], pieces[1..]);
    FlatOne(pieces[0]);
  }

  lemma {:induction false} LongestIsCut(cur: Line, rest: Line, pieces: seq<Line>)
    requires pieces != [] && Longest(pieces) && Flat(pieces) == cur + rest && cur != [] && cur <= pieces[0]
    ensures pieces == Cut(cur, rest)
    decreases |rest|
  {
    hide Width, Flat;
    FlatFirst(pieces);
    var more := pieces[1..];
    FlatOne(cur);
    assert pieces == [pieces[0]] + more;
    if more == [] {
      assert pieces[0] == cur + rest;
      CutFitting(cur, rest);
    } else if pieces[0] == cur {
      FlatFirst(more);
      assert rest == (cur + rest)[|cur|..] == Flat(more);
      assert rest[0] == more[0][0];
      assert rest == [rest[0]] + rest[1..];
      LongestIsCut([rest[0]], rest[1..], more);
    } else {
      var next := pieces[0][|cur|];
      assert rest[0] == (cur + rest)[|cur|] == next;
      PrefixWidth(cur + [next], pieces[0]);
      assert cur + rest == cur + [next] + rest[1..];
      LongestIsCut(cur + [next], rest[1..], pieces);
    }
  }

  /** A word is cut in one way: into the longest pieces that fit. */
  lemma {:induction false} PiecesAreUnique(word: Line, pieces: seq<Line>)
    requires word != []
    ensures Longest(Pieces(word))
    ensures Longest(pieces) && Flat(pieces) == word <==> pieces == Pieces(word)
  {
    hide Width, Flat, Longest;
    PiecesOfWord(word);
    NoWidth();
    CutIsLongest([], word);
    if Longest(pieces) && Flat(pieces) == word {
      FlatOne([]);
      FlatFirst(pieces);
      FirstIsNotEmpty(pieces);
      assert word == [word[0]] + word[1..];
      LongestIsCut([word[0]], word[1..], pieces);
      assert [] + [word[0]] == [word[0]];
    }
  }

  lemma {:induction false} FirstIsNotEmpty(pieces: seq<Line>)
    requires pieces != [] && Longest(pieces)
    ensures pieces[0] != []
  {
  }

  // ---- the words are determined as well ----

  lemma {:induction false} ScanBehindWhite(a: Line, g: Glyph, b: Line)
    requires g.white
    ensures Scan(a + [g] + b) == (Words(a) + Scan(b).0, Scan(b).1)
  {
    var s := a + [g] + b;
    if b == [] {
      assert s[..|s| - 1] == a && s[|s| - 1] == g;
      assert Words(a) + [] == Words(a);
    } else {
      var n := |b| - 1;
      ScanBehindWhite(a, g, b[..n]);
      assert s[..|s| - 1] == a + [g] + b[..n] && s[|s| - 1] == b[n];
      var (done, word) := Scan(b[..n]);
      assert Words(a) + (done + [word]) == Words(a) + done + [word];
    }
  }

  lemma {:induction false} ScanOfWord(w: Line)
    requires forall i :: 0 <= i < |w| ==> !w[i].white
    ensures Scan(w) == ([], w)
  {
    if w != [] {
      ScanOfWord(w[..|w| - 1]);
      assert w == w[..|w| - 1] + [w[|w| - 1]];
    }
  }

  /** White space separates words and nothing else does; with the empty text this fixes the splitting of every text. */
  lemma {:induction false} SplittingAtWhite(a: Line, g: Glyph, b: Line, w: Line)
    ensures g.white ==> Words(a + [g] + b) == Words(a) + Words(b)
    ensures IsWord(w) ==> Words(w) == [w]
    ensures Words([]) == []
  {
    if g.white { ScanBehindWhite(a, g, b); }
    if IsWord(w) { ScanOfWord(w); }
  }

  /** Splitting inverts joining. */
  lemma {:induction false} JoinSplits(words: seq<Line>)
    requires forall i :: 0 <= i < |words| ==> IsWord(words[i])
    ensures Words(Join(words)) == words
  {
    hide Words;
    if words == [] {
      SplittingAtWhite([], SPACE, [], []);
    } else {
      var n := |words| - 1;
      SplittingAtWhite(Join(words[..n]), SPACE, words[n], words[n]);
      JoinSplits(words[..n]);
      assert words == words[..n] + [words[n]];
    }
  }

  // ---- short texts ----

  lemma {:induction false} JoinWidth(words: seq<Line>, i: nat)
    requires i < |words|
    ensures Width(words[i]) <= Width(Join(words)) && |words[i]| <= |Join(words)|
  {
    hide Width;
    if |words| > 1 {
      var n := |words| - 1;
      WidthConcat(Join(words[..n]) + [SPACE], words[n]);
      WidthConcat(Join(words[..n]), [SPACE]);
      if i < n { JoinWidth(words[..n], i); }
    }
  }

  lemma {:induction false} WholeTokens(words: seq<Line>)
    requires forall i :: 0 <= i < |words| ==> words[i] != [] && Width(words[i]) <= MAX_COLUMNS
    ensures Texts(AllTokens(words)) == words && WholeWords(AllTokens(words))
  {
    hide Width, Pieces;
    if words != [] {
      var n := |words| - 1;
      WholeTokens(words[..n]);
      PiecesOfWord(words[n]);
      assert Tokens(words[n]) == [Token(words[n], words[n], true)];
      assert words == words[..n] + [words[n]];
      OneMoreWhole(AllTokens(words[..n]), words[n]);
    }
  }

  lemma {:induction false} OneMoreWhole(g: seq<Token>, word: Line)
    requires WholeWords(g)
    ensures WholeWords(g + [Token(word, word, true)]) && Texts(g + [Token(word, word, true)]) == Texts(g) + [word]
  {
  }

  /** A text whose words, joined by single spaces, take at most 32 cells becomes exactly that one line, or none. */
  lemma {:induction false} ShortTextIsOneLine(text: Line, output: seq<Line>, groups: seq<seq<Token>>)
    requires LaidOut(output, groups) && Filled(groups) && Grouped(groups) == AllTokens(Words(text))
    requires Width(Join(Words(text))) <= MAX_COLUMNS
    ensures output == if Words(text) == [] then [] else [Join(Words(text))]
  {
    var words := Words(text);
    forall i | 0 <= i < |words| ensures words[i] != [] && Width(words[i]) <= MAX_COLUMNS {
      JoinWidth(words, i);
      assert IsWord(words[i]);
    }
    hide Width, Words, IsWord;
    WholeTokens(words);
    var g := AllTokens(words);
    if words == [] {
      NoTokens(groups);
    } else {
      JoinWidth(words, 0);
      OneGroup(g, Join(words));
      WrappingIsUnique(text, output, groups, [Join(words)], [g]);
    }
  }

  lemma {:induction false} NoTokens(groups: seq<seq<Token>>)
    requires Filled(groups) && Grouped(groups) == []
    ensures groups == []
  {
    if groups != [] { GroupedFirst(groups); }
  }

  lemma {:induction false} OneGroup(g: seq<Token>, line: Line)
    requires WholeWords(g) && g != [] && line == LineOf(g) && line != [] && Width(line) <= MAX_COLUMNS
    ensures LaidOut([line], [g]) && Filled([g]) && Grouped([g]) == g
  {
    assert [g][..0] == [];
  }
}
