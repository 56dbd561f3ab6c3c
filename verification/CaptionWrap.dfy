/**
  Caption wrapping: `cell_width` and `wrap_line` in src/desktop/subtitle_formats/srt_to_vita_ttml.py.
  A character carries what the Unicode tables say of it: its cells and whether it is white space.
 */
module CaptionWrap {
  /** Combining characters take no cell, wide and full-width ones two. */
  datatype Glyph = Glyph(code: nat, combining: bool, wide: bool, white: bool)

  type Line = seq<Glyph>

  const MAX_COLUMNS: nat := 32
  const SPACE: Glyph := Glyph(32, false, false, true)

  function Cells(g: Glyph): (n: nat)
    ensures n <= 2
  {
    if g.combining then 0 else if g.wide then 2 else 1
  }

  function Width(s: Line): nat {
    if s == [] then 0 else Width(s[..|s| - 1]) + Cells(s[|s| - 1])
  }

  lemma {:induction false} WidthConcat(a: Line, b: Line)
    ensures Width(a + b) == Width(a) + Width(b)
  {
    if b == [] {
      assert a + b == a;
    } else {
      var n := |b| - 1;
      WidthConcat(a, b[..n]);
      assert (a + b)[..|a + b| - 1] == a + b[..n];
    }
  }

  lemma {:induction false} WidthOne(g: Glyph)
    ensures Width([g]) == Cells(g)
  {
    assert [g][..0] == [];
  }

  // ---- words ----

  function Flat(lines: seq<Line>): Line {
    if lines == [] then [] else Flat(lines[..|lines| - 1]) + lines[|lines| - 1]
  }

  lemma {:induction false} FlatConcat(a: seq<Line>, b: seq<Line>)
    ensures Flat(a + b) == Flat(a) + Flat(b)
  {
    if b == [] {
      assert a + b == a;
    } else {
      var n := |b| - 1;
      FlatConcat(a, b[..n]);
      assert (a + b)[..|a + b| - 1] == a + b[..n];
    }
  }

  function Ink(s: Line): Line {
    if s == [] then [] else Ink(s[..|s| - 1]) + if s[|s| - 1].white then [] else [s[|s| - 1]]
  }

  predicate IsWord(w: Line) { w != [] && forall i :: 0 <= i < |w| ==> !w[i].white }

  /** The words before the last one, and the word the text ends in, which is empty behind white space. */
  function Scan(text: Line): (r: (seq<Line>, Line))
    ensures forall i :: 0 <= i < |r.0| ==> IsWord(r.0[i])
    ensures r.1 == [] || IsWord(r.1)
  {
    if text == [] then ([], [])
    else
      var (done, word) := Scan(text[..|text| - 1]);
      var g := text[|text| - 1];
      if !g.white then (done, word + [g])
      else if word == [] then (done, []) else (done + [word], [])
  }

  /** Splitting at runs of white space. */
  function Words(text: Line): (r: seq<Line>)
    ensures forall i :: 0 <= i < |r| ==> IsWord(r[i])
  {
    var (done, word) := Scan(text);
    if word == [] then done else done + [word]
  }

  lemma {:induction false} ScanKeepsInk(text: Line)
    ensures Flat(Scan(text).0) + Scan(text).1 == Ink(text)
  {
    if text != [] {
      ScanKeepsInk(text[..|text| - 1]);
    }
  }

  /** Splitting loses nothing but white space. */
  lemma {:induction false} WordsKeepInk(text: Line)
    ensures Flat(Words(text)) == Ink(text)
  {
    ScanKeepsInk(text);
  }

  // ---- breaking a word ----

  /** The pieces of `rest`, when `cur` already stands on the line. */
  function Cut(cur: Line, rest: Line): seq<Line>
    decreases |rest|
  {
    if rest == [] then if cur == [] then [] else [cur]
    else if cur != [] && Width(cur + [rest[0]]) > MAX_COLUMNS then [cur] + Cut([rest[0]], rest[1..])
    else Cut(cur + [rest[0]], rest[1..])
  }

  function Pieces(word: Line): seq<Line> { Cut([], word) }

  lemma {:induction false} CutKeeps(cur: Line, rest: Line)
    ensures Flat(Cut(cur, rest)) == cur + rest
    decreases |rest|
  {
    if rest == [] {
      FlatOne(cur);
    } else {
      assert rest == [rest[0]] + rest[1..];
      if cur != [] && Width(cur + [rest[0]]) > MAX_COLUMNS {
        CutKeeps([rest[0]], rest[1..]);
        FlatConcat([cur], Cut([rest[0]], rest[1..]));
        FlatOne(cur);
      } else {
        CutKeeps(cur + [rest[0]], rest[1..]);
        assert cur + [rest[0]] + rest[1..] == cur + rest;
      }
    }
  }

  lemma {:induction false} FlatOne(s: Line)
    ensures Flat([s]) == s && Flat([]) == []
  {
    assert [s][..0] == [];
  }

  lemma {:induction false} CutFitting(cur: Line, rest: Line)
    requires Width(cur + rest) <= MAX_COLUMNS && cur + rest != []
    ensures Cut(cur, rest) == [cur + rest]
    decreases |rest|
  {
    if rest == [] {
      assert cur + rest == cur;
    } else {
      assert rest == [rest[0]] + rest[1..];
      assert cur + rest == cur + [rest[0]] + rest[1..];
      WidthConcat(cur + [rest[0]], rest[1..]);
      CutFitting(cur + [rest[0]], rest[1..]);
    }
  }

  lemma {:induction false} CutFits(cur: Line, rest: Line, i: nat)
    requires Width(cur) <= MAX_COLUMNS && i < |Cut(cur, rest)|
    ensures Cut(cur, rest)[i] != [] && Width(Cut(cur, rest)[i]) <= MAX_COLUMNS
    decreases |rest|
  {
    if rest != [] {
      WidthOne(rest[0]);
      if cur != [] && Width(cur + [rest[0]]) > MAX_COLUMNS {
        if i > 0 { CutFits([rest[0]], rest[1..], i - 1); }
      } else {
        assert cur == [] ==> cur + [rest[0]] == [rest[0]];
        CutFits(cur + [rest[0]], rest[1..], i);
      }
    }
  }

  /** The pieces of a word fit and make up the word, which stays whole exactly if it fits a line. */
  lemma {:induction false} PiecesOfWord(word: Line)
    ensures Flat(Pieces(word)) == word
    ensures forall i :: 0 <= i < |Pieces(word)| ==> Pieces(word)[i] != [] && Width(Pieces(word)[i]) <= MAX_COLUMNS
    ensures word != [] ==> (Pieces(word) == [word] <==> Width(word) <= MAX_COLUMNS)
  {
    NoWidth();
    hide Cut, Width;
    CutKeeps([], word);
    assert [] + word == word;
    forall i | 0 <= i < |Pieces(word)|
      ensures Pieces(word)[i] != [] && Width(Pieces(word)[i]) <= MAX_COLUMNS
    {
      CutFits([], word, i);
    }
    if word != [] && Width(word) <= MAX_COLUMNS { CutFitting([], word); }
    assert Pieces(word) == [word] ==> Pieces(word)[0] == word;
  }

  function AllPieces(words: seq<Line>): seq<Line> {
    if words == [] then [] else AllPieces(words[..|words| - 1]) + Pieces(words[|words| - 1])
  }

  lemma {:induction false} AllPiecesKeep(words: seq<Line>)
    ensures Flat(AllPieces(words)) == Flat(words)
  {
    if words != [] {
      var n := |words| - 1;
      AllPiecesKeep(words[..n]);
      PiecesOfWord(words[n]);
      FlatConcat(AllPieces(words[..n]), Pieces(words[n]));
    }
  }

  // ---- where pieces come from ----

  /** A piece, the word it belongs to, and whether it begins that word. */
  datatype Token = Token(text: Line, word: Line, first: bool)

  ghost function Mark(pieces: seq<Line>, word: Line, first: bool): seq<Token> {
    seq(|pieces|, i requires 0 <= i < |pieces| => Token(pieces[i], word, first && i == 0))
  }

  ghost function Tokens(word: Line): seq<Token> { Mark(Pieces(word), word, true) }

  ghost function AllTokens(words: seq<Line>): seq<Token> {
    if words == [] then [] else AllTokens(words[..|words| - 1]) + Tokens(words[|words| - 1])
  }

  ghost function Texts(tokens: seq<Token>): seq<Line> {
    seq(|tokens|, i requires 0 <= i < |tokens| => tokens[i].text)
  }

  lemma {:induction false} MarkMore(p: Line, pieces: seq<Line>, word: Line, first: bool)
    ensures Mark([p] + pieces, word, first) == [Token(p, word, first)] + Mark(pieces, word, false)
  {
  }

  lemma {:induction false} TextsOfAll(words: seq<Line>)
    ensures Texts(AllTokens(words)) == AllPieces(words)
  {
    hide Pieces;
    if words != [] {
      TextsOfAll(words[..|words| - 1]);
    }
  }

  lemma {:induction false} AllTokensStep(words: seq<Line>, i: nat)
    requires i < |words|
    ensures AllTokens(words[..i + 1]) == AllTokens(words[..i]) + Tokens(words[i])
  {
    hide Tokens;
    assert words[..i + 1][..i] == words[..i];
  }

  // ---- lines ----

  /** Pieces joined by single spaces. */
  function Join(pieces: seq<Line>): Line {
    if pieces == [] then []
    else if |pieces| == 1 then pieces[0]
    else Join(pieces[..|pieces| - 1]) + [SPACE] + pieces[|pieces| - 1]
  }

  lemma {:induction false} JoinMore(pieces: seq<Line>, p: Line)
    ensures Join(pieces + [p]) == if pieces == [] then p else Join(pieces) + [SPACE] + p
  {
    assert (pieces + [p])[..|pieces|] == pieces;
  }

  ghost function Grouped(groups: seq<seq<Token>>): seq<Token> {
    if groups == [] then [] else Grouped(groups[..|groups| - 1]) + groups[|groups| - 1]
  }

  lemma {:induction false} GroupedMore(groups: seq<seq<Token>>, g: seq<Token>)
    ensures Grouped(groups + [g]) == Grouped(groups) + g
  {
    assert (groups + [g])[..|groups|] == groups;
  }

  /** The line of a group. */
  ghost function LineOf(g: seq<Token>): Line { Join(Texts(g)) }

  lemma {:induction false} LineMore(g: seq<Token>, t: Token)
    ensures LineOf(g + [t]) == if g == [] then t.text else LineOf(g) + [SPACE] + t.text
  {
    hide Join;
    assert Texts(g + [t]) == Texts(g) + [t.text];
    JoinMore(Texts(g), t.text);
  }

  lemma {:induction false} LineOfOne(t: Token)
    ensures LineOf([t]) == t.text && LineOf([]) == []
  {
    hide LineOf;
    LineMore([], t);
    assert [] + [t] == [t];
    NoLine();
  }

  lemma {:induction false} NoLine()
    ensures LineOf([]) == []
  {
  }

  /** Line i is non-empty, fits, and joins the pieces of group i. */
  ghost predicate LaidOut(output: seq<Line>, groups: seq<seq<Token>>) {
    && |output| == |groups|
    && forall i :: 0 <= i < |output| ==>
         output[i] != [] && Width(output[i]) <= MAX_COLUMNS && groups[i] != [] && output[i] == LineOf(groups[i])
  }

  lemma {:induction false} LaidOutMore(output: seq<Line>, groups: seq<seq<Token>>, line: Line, g: seq<Token>)
    requires LaidOut(output, groups) && line != [] && Width(line) <= MAX_COLUMNS && g != [] && line == LineOf(g)
    ensures LaidOut(output + [line], groups + [g])
  {
    hide LineOf, Width;
    forall i | 0 <= i < |output| + 1
      ensures (output + [line])[i] != [] && Width((output + [line])[i]) <= MAX_COLUMNS && (groups + [g])[i] != []
           && (output + [line])[i] == LineOf((groups + [g])[i])
    {
      if i < |output| { assert (output + [line])[i] == output[i] && (groups + [g])[i] == groups[i]; }
    }
  }

  // ---- lines are broken only where they must be ----

  /** The line could not go on with t: with its whole word behind a space, or inside a word with the next character. */
  ghost predicate Ends(line: Line, t: Token) {
    if t.first then Width(line + [SPACE] + t.word) > MAX_COLUMNS
    else t.text != [] && Width(line + [t.text[0]]) > MAX_COLUMNS
  }

  /** Behind another piece stand only whole words. */
  ghost predicate WholeWords(g: seq<Token>) {
    forall j :: 1 <= j < |g| ==> g[j].first && g[j].text == g[j].word
  }

  /** What stands in front of t ends there because it must. */
  ghost predicate Broken(groups: seq<seq<Token>>, t: Token) {
    groups != [] ==> Ends(LineOf(groups[|groups| - 1]), t)
  }

  /** No line is broken before it has to be. */
  ghost predicate Filled(groups: seq<seq<Token>>) {
    && (forall i :: 0 <= i < |groups| ==> groups[i] != [] && WholeWords(groups[i]))
    && (forall i :: 0 <= i < |groups| - 1 ==> Ends(LineOf(groups[i]), groups[i + 1][0]))
  }

  lemma {:induction false} FilledMore(groups: seq<seq<Token>>, g: seq<Token>)
    requires Filled(groups) && g != [] && WholeWords(g) && Broken(groups, g[0])
    ensures Filled(groups + [g])
  {
    hide Ends, LineOf, WholeWords;
    var all := groups + [g];
    forall i | 0 <= i < |all| - 1 ensures Ends(LineOf(all[i]), all[i + 1][0]) {
      assert all[i] == groups[i];
      if i + 1 < |groups| { assert all[i + 1] == groups[i + 1]; }
    }
  }

  lemma {:induction false} WidthMore(s: Line, g: Glyph)
    ensures Width(s + [g]) == Width(s) + Cells(g)
  {
    WidthConcat(s, [g]);
    WidthOne(g);
  }

  /** Everything known of the finished lines. */
  ghost predicate Finished(output: seq<Line>, groups: seq<seq<Token>>) { LaidOut(output, groups) && Filled(groups) }

  lemma {:induction false} FinishedMore(output: seq<Line>, groups: seq<seq<Token>>, line: Line, g: seq<Token>)
    requires Finished(output, groups) && line != [] && Width(line) <= MAX_COLUMNS && g != [] && line == LineOf(g)
    requires WholeWords(g) && Broken(groups, g[0])
    ensures Finished(output + [line], groups + [g]) && Grouped(groups + [g]) == Grouped(groups) + g
    ensures forall t :: Ends(line, t) ==> Broken(groups + [g], t)
  {
    hide LaidOut, Filled, Ends, Width, Grouped, LineOf;
    LaidOutMore(output, groups, line, g);
    FilledMore(groups, g);
    GroupedMore(groups, g);
  }

  /** Sets a word character by character on a fresh line, breaking where the next one does not fit. */
  method BreakWord(word: Line, output: seq<Line>, ghost groups: seq<seq<Token>>)
    returns (output': seq<Line>, current: Line, ghost groups': seq<seq<Token>>, ghost first: bool)
    requires word != [] && Finished(output, groups) && Broken(groups, Token([], word, true))
    ensures Finished(output', groups') && current != [] && Width(current) <= MAX_COLUMNS
    ensures Broken(groups', Token(current, word, first))
    ensures Grouped(groups') + [Token(current, word, first)] == Grouped(groups) + Tokens(word)
  {
    hide Finished, Grouped, Join, Width, Broken, LineOf, Ends, Mark;
    output', current, groups', first := output, [], groups, true;
    NoWidth();
    assert word[0..] == word && Grouped(groups) + Mark(Cut([], word), word, true) == Grouped(groups) + Tokens(word);
    for i := 0 to |word|
      invariant Finished(output', groups') && Width(current) <= MAX_COLUMNS && (current == [] <==> i == 0)
      invariant Broken(groups', Token(current, word, first)) && (current == [] ==> first)
      invariant Grouped(groups') + Mark(Cut(current, word[i..]), word, first) == Grouped(groups) + Tokens(word)
    {
      assert word[i..][1..] == word[i + 1..] && word[i..][0] == word[i];
      ghost var rest := Cut([word[i]], word[i + 1..]);
      WidthMore([], word[i]);
      assert [] + [word[i]] == [word[i]];
      if current != [] && Width(current + [word[i]]) > MAX_COLUMNS {
        ghost var t := Token(current, word, first);
        LineOfOne(t);
        FinishedMore(output', groups', current, [t]);
        EndsInside(current, word, word[i]);
        MarkMore(current, rest, word, first);
        assert Grouped(groups') + ([t] + Mark(rest, word, false)) == Grouped(groups') + [t] + Mark(rest, word, false);
        output', groups', first := output' + [current], groups' + [[t]], false;
        current := [];
      } else {
        Continues(groups', current, word, first, word[i]);
      }
      current := current + [word[i]];
    }
    assert word[|word|..] == [];
    MarkMore(current, [], word, first);
    assert [current] + [] == [current];
    MarkNone(word);
  }

  lemma {:induction false} MarkNone(word: Line)
    ensures Mark([], word, false) == []
  {
  }

  lemma {:induction false} EndsInside(line: Line, word: Line, g: Glyph)
    requires Width(line + [g]) > MAX_COLUMNS
    ensures Ends(line, Token([g], word, false))
  {
    hide Width;
  }

  lemma {:induction false} Continues(groups: seq<seq<Token>>, current: Line, word: Line, first: bool, g: Glyph)
    requires Broken(groups, Token(current, word, first)) && (current == [] ==> first)
    ensures Broken(groups, Token(current + [g], word, first))
  {
    hide LineOf, Width;
  }

  lemma {:induction false} NoWidth()
    ensures Width([]) == 0
  {
  }

  /**
    Wraps a line. Every output line is non-empty and at most 32 cells wide; the lines join, in order and
    without loss, the pieces of the words, a word of at most 32 cells is a single piece, and no line is broken
    before it has to be.
   */
  method WrapLine(text: Line) returns (output: seq<Line>, ghost groups: seq<seq<Token>>)
    ensures LaidOut(output, groups) && Filled(groups)
    ensures Grouped(groups) == AllTokens(Words(text))
    ensures forall i :: 0 <= i < |output| ==> output[i] != [] && Width(output[i]) <= MAX_COLUMNS
    ensures Ink(Flat(output)) == Ink(text)
  {
    hide LaidOut, Filled, Grouped, Width, Tokens, AllTokens, Words, Ink, Flat, LineOf, Ends, Broken;
    output, groups := [], [];
    var current: Line := [];
    ghost var group: seq<Token> := [];
    var words := Words(text);
    assert words[..0] == [];
    Nothing();
    for i := 0 to |words|
      invariant Finished(output, groups) && Width(current) <= MAX_COLUMNS && WholeWords(group)
      invariant current == LineOf(group) && (current == [] <==> group == [])
      invariant if group == [] then groups == [] else Broken(groups, group[0])
      invariant Grouped(groups) + group == AllTokens(words[..i])
    {
      var word := words[i];
      WordsNotEmpty(text, i);
      AllTokensStep(words, i);
      var proposed := if current != [] then current + [SPACE] + word else word;
      ghost var t := Token(word, word, true);
      if Width(proposed) <= MAX_COLUMNS {
        ShortWord(current, word);
        LineMore(group, t);
        StartsBroken(groups, t);
        assert Grouped(groups) + group + [t] == Grouped(groups) + (group + [t]);
        current, group := proposed, group + [t];
      } else {
        StartsBroken(groups, Token([], word, true));
        if current != [] {
          FinishedMore(output, groups, current, group);
          EndsBefore(current, word);
          output, groups := output + [current], groups + [group];
        }
        ghost var first;
        output, current, groups, first := BreakWord(word, output, groups);
        group := [Token(current, word, first)];
        LineOfOne(group[0]);
      }
    }
    assert words[..|words|] == words;
    if current != [] {
      FinishedMore(output, groups, current, group);
      output, groups := output + [current], groups + [group];
    }
    LinesFit(output, groups);
    WrappingLosesNothing(text, output, groups);
  }

  lemma {:induction false} StartsBroken(groups: seq<seq<Token>>, t: Token)
    ensures groups == [] ==> Broken(groups, t)
  {
  }

  lemma {:induction false} EndsBefore(line: Line, word: Line)
    requires Width(line + [SPACE] + word) > MAX_COLUMNS
    ensures Ends(line, Token([], word, true))
  {
    hide Width;
  }

  lemma {:induction false} LinesFit(output: seq<Line>, groups: seq<seq<Token>>)
    requires LaidOut(output, groups)
    ensures forall i :: 0 <= i < |output| ==> output[i] != [] && Width(output[i]) <= MAX_COLUMNS
  {
  }

  lemma {:induction false} Nothing()
    ensures Finished([], []) && Grouped([]) == [] && AllTokens([]) == [] && LineOf([]) == [] && Width([]) == 0
  {
  }

  lemma {:induction false} WordsNotEmpty(text: Line, i: nat)
    requires i < |Words(text)|
    ensures Words(text)[i] != []
  {
  }

  /** A word that fits behind a line is one piece. */
  lemma {:induction false} ShortWord(current: Line, word: Line)
    requires word != [] && Width(if current != [] then current + [SPACE] + word else word) <= MAX_COLUMNS
    ensures Tokens(word) == [Token(word, word, true)]
  {
    hide Pieces, Width;
    WidthConcat(current + [SPACE], word);
    PiecesOfWord(word);
  }

  // ---- nothing is lost ----

  lemma {:induction false} InkConcat(a: Line, b: Line)
    ensures Ink(a + b) == Ink(a) + Ink(b)
  {
    if b == [] {
      assert a + b == a;
    } else {
      var n := |b| - 1;
      InkConcat(a, b[..n]);
      assert (a + b)[..|a + b| - 1] == a + b[..n];
    }
  }

  lemma {:induction false} InkOfSpace()
    ensures Ink([SPACE]) == []
  {
    assert [SPACE][..0] == [];
  }

  lemma {:induction false} InkOfJoin(pieces: seq<Line>)
    ensures Ink(Join(pieces)) == Ink(Flat(pieces))
  {
    hide Ink;
    if |pieces| == 1 {
      FlatOne(pieces[0]);
      assert pieces == [pieces[0]];
    } else if |pieces| > 1 {
      var n := |pieces| - 1;
      var front, last := pieces[..n], pieces[n];
      InkOfJoin(front);
      InkOfSpace();
      InkConcat(Join(front) + [SPACE], last);
      InkConcat(Join(front), [SPACE]);
      InkConcat(Flat(front), last);
    }
  }

  lemma {:induction false} InkOfLines(output: seq<Line>, groups: seq<seq<Token>>)
    requires LaidOut(output, groups)
    ensures Ink(Flat(output)) == Ink(Flat(Texts(Grouped(groups))))
  {
    hide Ink, Join, Width;
    if output != [] {
      var n := |output| - 1;
      InkOfLines(output[..n], groups[..n]);
      InkOfJoin(Texts(groups[n]));
      InkConcat(Flat(output[..n]), output[n]);
      assert Texts(Grouped(groups)) == Texts(Grouped(groups[..n])) + Texts(groups[n]);
      FlatConcat(Texts(Grouped(groups[..n])), Texts(groups[n]));
      InkConcat(Flat(Texts(Grouped(groups[..n]))), Flat(Texts(groups[n])));
    }
  }

  lemma {:induction false} InkTwice(s: Line)
    ensures Ink(Ink(s)) == Ink(s)
  {
    if s != [] {
      var n := |s| - 1;
      InkTwice(s[..n]);
      if !s[n].white {
        InkConcat(Ink(s[..n]), [s[n]]);
        assert [s[n]][..0] == [];
      } else {
        assert Ink(s) == Ink(s[..n]);
      }
    }
  }

  /** The wrapped lines carry exactly the characters of the text, in order, up to white space. */
  lemma {:induction false} WrappingLosesNothing(text: Line, output: seq<Line>, groups: seq<seq<Token>>)
    requires LaidOut(output, groups) && Grouped(groups) == AllTokens(Words(text))
    ensures Ink(Flat(output)) == Ink(text)
  {
    hide *;
    InkOfLines(output, groups);
    TextsOfAll(Words(text));
    AllPiecesKeep(Words(text));
    WordsKeepInk(text);
    InkTwice(text);
  }
}
